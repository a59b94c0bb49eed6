/** The text operations the service relies on. */
module Text {

  /** unicode.IsSpace. */
  predicate IsSpace(c: char) {
    var n := c as int;
    || 0x09 <= n <= 0x0d || n == 0x20 || n == 0x85 || n == 0xa0 || n == 0x1680
    || 0x2000 <= n <= 0x200a || n == 0x2028 || n == 0x2029 || n == 0x202f || n == 0x205f || n == 0x3000
  }

  function TrimLeft(s: string): string {
    if s != [] && IsSpace(s[0]) then TrimLeft(s[1..]) else s
  }

  function TrimRight(s: string): string {
    if s != [] && IsSpace(s[|s| - 1]) then TrimRight(s[..|s| - 1]) else s
  }

  /** strings.TrimSpace. */
  function Trim(s: string): string {
    TrimRight(TrimLeft(s))
  }

  ghost predicate Trimmed(s: string) {
    s == [] || (!IsSpace(s[0]) && !IsSpace(s[|s| - 1]))
  }

  lemma {:induction false} TrimLeftShape(s: string)
    ensures TrimLeft(s) == [] || !IsSpace(TrimLeft(s)[0])
  {
    if s != [] && IsSpace(s[0]) { TrimLeftShape(s[1..]); }
  }

  lemma {:induction false} TrimRightShape(s: string)
    ensures var r := TrimRight(s); r <= s && (r == [] || !IsSpace(r[|r| - 1]))
  {
    if s != [] && IsSpace(s[|s| - 1]) { TrimRightShape(s[..|s| - 1]); }
  }

  /** Trimming yields a trimmed text, and a text is trimmed exactly when trimming keeps it. */
  lemma TrimTrims(s: string)
    ensures Trimmed(Trim(s))
    ensures Trimmed(s) <==> Trim(s) == s
  {
    TrimLeftShape(s);
    TrimRightShape(TrimLeft(s));
  }

  ghost predicate AllSpaces(s: string) {
    forall i :: 0 <= i < |s| ==> IsSpace(s[i])
  }

  lemma {:induction false} TrimLeftDrops(s: string)
    ensures |TrimLeft(s)| <= |s| && AllSpaces(s[..|s| - |TrimLeft(s)|]) && s[|s| - |TrimLeft(s)|..] == TrimLeft(s)
  {
    if s != [] && IsSpace(s[0]) {
      TrimLeftDrops(s[1..]);
      var n := |s| - |TrimLeft(s)|;
      assert s[1..][n - 1..] == s[n..];
      assert forall i :: 1 <= i < n ==> s[i] == s[1..][..n - 1][i - 1];
    }
  }

  lemma {:induction false} TrimRightDrops(s: string)
    ensures TrimRight(s) <= s && AllSpaces(s[|TrimRight(s)|..])
  {
    if s != [] && IsSpace(s[|s| - 1]) {
      var t, n := s[..|s| - 1], |TrimRight(s)|;
      TrimRightDrops(t);
      assert forall i :: n <= i < |t| ==> s[i] == t[n..][i - n];
    }
  }

  /** Trimming drops white space from both ends and nothing else. */
  lemma TrimIsMiddle(s: string)
    ensures exists a, b :: s == a + Trim(s) + b && AllSpaces(a) && AllSpaces(b)
  {
    TrimLeftDrops(s);
    var l := TrimLeft(s);
    TrimRightDrops(l);
    var a, b := s[..|s| - |l|], l[|Trim(s)|..];
    assert s == a + Trim(s) + b && AllSpaces(a) && AllSpaces(b);
  }

  /** Blanks and line ends are white space; no letter, digit or mark of a host name is. */
  lemma WhiteSpace(c: char)
    ensures IsSpace(' ') && IsSpace('\t') && IsSpace('\n') && IsSpace('\r')
    ensures 'a' <= c <= 'z' || 'A' <= c <= 'Z' || '0' <= c <= '9' || c in "._-:()" ==> !IsSpace(c)
  {
  }

  /** The length of the UTF-8 encoding, which is what len measures. */
  function Utf8Length(s: string): nat {
    if s == [] then 0
    else
      var n := s[|s| - 1] as int;
      Utf8Length(s[..|s| - 1]) + (if n < 0x80 then 1 else if n < 0x800 then 2 else if n < 0x1_0000 then 3 else 4)
  }

  lemma {:induction false} Utf8LengthConcat(a: string, b: string)
    ensures Utf8Length(a + b) == Utf8Length(a) + Utf8Length(b)
  {
    if b == [] {
      assert a + b == a;
    } else {
      assert (a + b)[..|a + b| - 1] == a + b[..|b| - 1];
      Utf8LengthConcat(a, b[..|b| - 1]);
    }
  }

  ghost predicate Ascii(s: string) {
    forall i :: 0 <= i < |s| ==> s[i] as int < 0x80
  }

  /** One byte for each ASCII character, more for any other, and at most four. */
  lemma {:induction false} Utf8LengthBounds(s: string)
    ensures |s| <= Utf8Length(s) <= 4 * |s|
    ensures Utf8Length(s) == |s| <==> Ascii(s)
  {
    if s != [] {
      var t, c := s[..|s| - 1], s[|s| - 1];
      Utf8LengthBounds(t);
      assert forall i :: 0 <= i < |t| ==> t[i] == s[i];
      assert Ascii(s) <==> Ascii(t) && c as int < 0x80;
    }
  }
}
