/** The simulator's address generator and the seeder's nested, batched version of it. */
module AddressOdometer {

  /** strconv.Itoa on non-negative numbers. */
  function Itoa(n: nat): (s: string)
    ensures s != [] && forall i :: 0 <= i < |s| ==> '0' <= s[i] <= '9'
  {
    var d := [(n % 10) as char + '0'];
    if n < 10 then d else Itoa(n / 10) + d
  }

  function Render(subnet: string, octet3: nat, octet4: nat): string {
    subnet + "." + Itoa(octet3) + "." + Itoa(octet4)
  }

  function Third(i: nat): nat { i / 254 }

  function Fourth(i: nat): nat { i % 254 + 1 }

  function Address(subnet: string, i: nat): string {
    Render(subnet, Third(i), Fourth(i))
  }

  /** One turn of the odometer is the next index. */
  lemma Turn(i: nat)
    ensures Fourth(i) == 254 ==> Third(i + 1) == Third(i) + 1 && Fourth(i + 1) == 1
    ensures Fourth(i) < 254 ==> Third(i + 1) == Third(i) && Fourth(i + 1) == Fourth(i) + 1
  {
    var q, r := i / 254, i % 254;
    assert i + 1 == if r == 253 then 254 * (q + 1) else 254 * q + (r + 1);
  }

  method GenerateIPs(count: nat, subnet: string) returns (ips: seq<string>)
    ensures |ips| == count && forall i :: 0 <= i < count ==> ips[i] == Address(subnet, i)
  {
    ips := [];
    var octet3, octet4 := 0, 1;
    for i := 0 to count
      invariant |ips| == i && octet3 == Third(i) && octet4 == Fourth(i)
      invariant forall j :: 0 <= j < i ==> ips[j] == Address(subnet, j)
    {
      ips := ips + [subnet + "." + Itoa(octet3) + "." + Itoa(octet4)];
      Turn(i);
      octet4 := octet4 + 1;
      if octet4 > 254 {
        octet4 := 1;
        octet3 := octet3 + 1;
      }
    }
  }

  function Flatten(batches: seq<seq<string>>): seq<string> {
    if batches == [] then [] else Flatten(batches[..|batches| - 1]) + batches[|batches| - 1]
  }

  /** The texts are the addresses from the given index on. */
  ghost predicate Lists(texts: seq<string>, subnet: string, from: nat) {
    forall k :: 0 <= k < |texts| ==> texts[k] == Address(subnet, from + k)
  }

  lemma FlattenLists(batches: seq<seq<string>>, batch: seq<string>, subnet: string)
    requires Lists(Flatten(batches), subnet, 0) && Lists(batch, subnet, |Flatten(batches)|)
    ensures Lists(Flatten(batches + [batch]), subnet, 0) && |Flatten(batches + [batch])| == |Flatten(batches)| + |batch|
  {
    assert (batches + [batch])[..|batches|] == batches;
  }

  /** All batches are full. */
  ghost predicate Full(batches: seq<seq<string>>, batchSize: nat) {
    forall b :: 0 <= b < |batches| ==> |batches[b]| == batchSize
  }

  /** The inner loop: the addresses from one index up to another, the octets carried on. */
  method FillBatch(i: nat, end: nat, subnet: string, third: nat, fourth: nat)
    returns (batch: seq<string>, octet3: nat, octet4: nat)
    requires i <= end && third == Third(i) && fourth == Fourth(i)
    ensures |batch| == end - i && Lists(batch, subnet, i) && octet3 == Third(end) && octet4 == Fourth(end)
  {
    batch, octet3, octet4 := [], third, fourth;
    for j := i to end
      invariant |batch| == j - i && octet3 == Third(j) && octet4 == Fourth(j) && Lists(batch, subnet, i)
    {
      batch := batch + [Render(subnet, octet3, octet4)];
      Turn(j);
      octet4 := octet4 + 1;
      if octet4 > 254 {
        octet4 := 1;
        octet3 := octet3 + 1;
      }
    }
  }

  /** The seeder: whatever the batch size, its batches in sequence are the same addresses,
      and all but the last are full. */
  method SeedBatches(count: nat, batchSize: nat, subnet: string) returns (batches: seq<seq<string>>)
    requires batchSize >= 1
    ensures |Flatten(batches)| == count
    ensures forall i :: 0 <= i < count ==> Flatten(batches)[i] == Address(subnet, i)
    ensures forall b :: 0 <= b < |batches| ==> 1 <= |batches[b]| <= batchSize
    ensures forall b :: 0 <= b < |batches| - 1 ==> |batches[b]| == batchSize
  {
    batches := [];
    var octet3, octet4 := 0, 1;
    var i := 0;
    while i < count
      invariant i <= count && |Flatten(batches)| == i && octet3 == Third(i) && octet4 == Fourth(i)
      invariant Lists(Flatten(batches), subnet, 0)
      invariant if i < count then Full(batches, batchSize)
                else batches == [] || (Full(batches[..|batches| - 1], batchSize) && 1 <= |batches[|batches| - 1]| <= batchSize)
    {
      var end := if i + batchSize > count then count else i + batchSize;
      var batch;
      batch, octet3, octet4 := FillBatch(i, end, subnet, octet3, octet4);
      FlattenLists(batches, batch, subnet);
      assert (batches + [batch])[..|batches|] == batches;
      batches := batches + [batch];
      i := end;
    }
    assert forall b :: 0 <= b < |batches| - 1 ==> batches[b] == batches[..|batches| - 1][b];
  }

  // ---- Distinctness ---------------------------------------------------------------

  lemma {:induction false} ItoaInjective(a: nat, b: nat)
    ensures Itoa(a) == Itoa(b) ==> a == b
  {
    if Itoa(a) == Itoa(b) {
      var s := Itoa(a);
      assert s[|s| - 1] == (a % 10) as char + '0' == (b % 10) as char + '0';
      assert a % 10 == b % 10;
      if a >= 10 && b >= 10 {
        assert Itoa(a / 10) == s[..|s| - 1] == Itoa(b / 10);
        ItoaInjective(a / 10, b / 10);
      }
    }
  }

  /** Digits, a dot, and more digits can be read back. */
  lemma DottedInjective(a: nat, b: nat, c: nat, d: nat)
    requires Itoa(a) + "." + Itoa(b) == Itoa(c) + "." + Itoa(d)
    ensures a == c && b == d
  {
    var s, t := Itoa(a) + "." + Itoa(b), Itoa(c) + "." + Itoa(d);
    assert s[|Itoa(a)|] == '.' && t[|Itoa(c)|] == '.';
    assert forall i :: 0 <= i < |Itoa(a)| ==> s[i] == Itoa(a)[i];
    assert forall i :: 0 <= i < |Itoa(c)| ==> t[i] == Itoa(c)[i];
    assert |Itoa(a)| == |Itoa(c)|;
    assert Itoa(a) == s[..|Itoa(a)|] == t[..|Itoa(c)|] == Itoa(c);
    assert Itoa(b) == s[|Itoa(a)| + 1..] == t[|Itoa(c)| + 1..] == Itoa(d);
    ItoaInjective(a, c);
    ItoaInjective(b, d);
  }

  /** No two generated addresses are the same text. */
  lemma AddressesAreDistinct(subnet: string, i: nat, j: nat)
    requires Address(subnet, i) == Address(subnet, j)
    ensures i == j
  {
    var s, t := Address(subnet, i), Address(subnet, j);
    assert s[|subnet| + 1..] == Itoa(Third(i)) + "." + Itoa(Fourth(i));
    assert t[|subnet| + 1..] == Itoa(Third(j)) + "." + Itoa(Fourth(j));
    DottedInjective(Third(i), Fourth(i), Third(j), Fourth(j));
  }

  /** The third octet fits a byte for all addresses exactly up to 65024 of them. */
  lemma OctetsFitIff(count: nat)
    ensures (forall i: nat :: i < count ==> Third(i) <= 255 && 1 <= Fourth(i) <= 254) <==> count <= 65024
  {
    if count > 65024 {
      assert Third(65024) == 256;
    }
  }

  // ---- Reading back -----------------------------------------------------------------

  ghost predicate Digits(s: string) {
    s != [] && forall i :: 0 <= i < |s| ==> '0' <= s[i] <= '9'
  }

  /** The number that a row of decimal digits stands for. */
  function Value(s: string): int {
    if s == [] then 0 else Value(s[..|s| - 1]) * 10 + (s[|s| - 1] as int - '0' as int)
  }

  lemma {:induction false} ItoaValue(n: nat)
    ensures Value(Itoa(n)) == n
  {
    var s := Itoa(n);
    assert s[|s| - 1] as int - '0' as int == n % 10;
    if n >= 10 {
      assert s[..|s| - 1] == Itoa(n / 10);
      ItoaValue(n / 10);
    } else {
      assert s[..|s| - 1] == [];
    }
  }

  /** The i-th text reads as the subnet, then i div 254, then i mod 254 + 1. */
  lemma AddressReads(subnet: string, i: nat)
    ensures exists x, y :: Address(subnet, i) == subnet + "." + x + "." + y
                           && Digits(x) && Digits(y) && Value(x) == i / 254 && Value(y) == i % 254 + 1
  {
    ItoaValue(i / 254);
    ItoaValue(i % 254 + 1);
    var x, y := Itoa(i / 254), Itoa(i % 254 + 1);
    assert Address(subnet, i) == subnet + "." + x + "." + y;
  }
}
