/** The distributed lock that gates monitoring cycles: a key set only if absent, with a
    time to live, and never deleted. Times are on the clock of the Redis server; a key
    set at t with time to live d > 0 exists on [t, t + d). */
module CycleLock {

  datatype Key = Absent | Until(expiry: int) | Forever

  datatype Reply = Acquired | Busy | Failed

  predicate Live(k: Key, now: int) {
    k.Forever? || (k.Until? && now < k.expiry)
  }

  /** SET NX with an expiration; an expiration of zero means a key that never expires. */
  function SetNX(k: Key, now: int, ttl: nat): (Key, bool) {
    if Live(k, now) then (k, false)
    else (if ttl == 0 then Forever else Until(now + ttl), true)
  }

  /** One call of runCycle on some instance; `fails` is a Redis error. */
  datatype Attempt = Attempt(time: int, instance: nat, fails: bool)

  function KeyAfter(ttl: nat, attempts: seq<Attempt>): Key {
    if attempts == [] then Absent
    else
      var k, a := KeyAfter(ttl, attempts[..|attempts| - 1]), attempts[|attempts| - 1];
      if a.fails then k else SetNX(k, a.time, ttl).0
  }

  /** The i-th attempt obtains the lock and so runs a cycle. */
  predicate Wins(ttl: nat, attempts: seq<Attempt>, i: nat)
    requires i < |attempts|
  {
    !attempts[i].fails && SetNX(KeyAfter(ttl, attempts[..i]), attempts[i].time, ttl).1
  }

  class LockServer {
    var key: Key
    ghost var attempts: seq<Attempt>
    const ttl: nat

    ghost predicate Valid()
      reads this
    {
      key == KeyAfter(ttl, attempts)
    }

    constructor (ttl: nat)
      ensures Valid() && attempts == [] && this.ttl == ttl
    {
      this.ttl := ttl;
      key := Absent;
      attempts := [];
    }

    method AcquireLock(now: int, instance: nat, fails: bool) returns (r: Reply)
      requires Valid()
      modifies this
      ensures Valid()
      ensures attempts == old(attempts) + [Attempt(now, instance, fails)]
      ensures r == if fails then Failed else if Wins(ttl, attempts, |old(attempts)|) then Acquired else Busy
    {
      attempts := attempts + [Attempt(now, instance, fails)];
      assert attempts[..|old(attempts)|] == old(attempts);
      if fails { return Failed; }
      if Live(key, now) { return Busy; }
      key := if ttl == 0 then Forever else Until(now + ttl);
      return Acquired;
    }
  }

  ghost predicate Ordered(attempts: seq<Attempt>) {
    forall i, j :: 0 <= i <= j < |attempts| ==> attempts[i].time <= attempts[j].time
  }

  /** Once won, the key outlasts the winner's whole time to live in every longer history. */
  lemma {:induction false} WinnerKeepsKey(ttl: nat, attempts: seq<Attempt>, i: nat, m: nat)
    requires Ordered(attempts) && i < m <= |attempts| && Wins(ttl, attempts, i)
    ensures var k := KeyAfter(ttl, attempts[..m]);
            if ttl == 0 then k.Forever? else k.Until? && k.expiry >= attempts[i].time + ttl
    decreases m
  {
    assert attempts[..m][..m - 1] == attempts[..m - 1];
    if m > i + 1 {
      WinnerKeepsKey(ttl, attempts, i, m - 1);
    }
  }

  /** Any two cycles, on whatever instances, start at least the time to live apart; with
      an unlimited key there is never a second one. */
  lemma AcquisitionsAreSpaced(ttl: nat, attempts: seq<Attempt>, i: nat, j: nat)
    requires Ordered(attempts) && i < j < |attempts|
    requires Wins(ttl, attempts, i) && Wins(ttl, attempts, j)
    ensures ttl > 0 && attempts[j].time >= attempts[i].time + ttl
  {
    WinnerKeepsKey(ttl, attempts, i, j);
  }

  /** The key always stems from the winner it still belongs to. */
  lemma {:induction false} KeyStemsFromWinner(ttl: nat, attempts: seq<Attempt>, m: nat)
    requires ttl > 0 && m <= |attempts|
    ensures var k := KeyAfter(ttl, attempts[..m]);
            k.Absent? || exists i: nat :: i < m && Wins(ttl, attempts, i) && k == Until(attempts[i].time + ttl)
  {
    if m > 0 {
      assert attempts[..m][..m - 1] == attempts[..m - 1];
      KeyStemsFromWinner(ttl, attempts, m - 1);
      assert !Wins(ttl, attempts, m - 1) ==> KeyAfter(ttl, attempts[..m]) == KeyAfter(ttl, attempts[..m - 1]);
    }
  }

  /** The lock is exactly as exclusive as its time to live: an attempt that reaches Redis
      runs a cycle if and only if every earlier cycle began at least that long ago. */
  lemma AcquiredIff(ttl: nat, attempts: seq<Attempt>, j: nat)
    requires ttl > 0 && Ordered(attempts) && j < |attempts| && !attempts[j].fails
    ensures Wins(ttl, attempts, j) <==>
            forall i: nat :: i < j && Wins(ttl, attempts, i) ==> attempts[j].time >= attempts[i].time + ttl
  {
    KeyStemsFromWinner(ttl, attempts, j);
    if Wins(ttl, attempts, j) {
      forall i: nat | i < j && Wins(ttl, attempts, i) ensures attempts[j].time >= attempts[i].time + ttl {
        AcquisitionsAreSpaced(ttl, attempts, i, j);
      }
    }
  }

  /** An evaluation of some server, inside the cycle of the attempt that won the lock. */
  datatype Span = Span(from: int, to: int)

  ghost predicate Within(s: Span, start: int, duration: int) {
    start <= s.from <= s.to <= start + duration
  }

  /** If cycles last no longer than the time to live, evaluations of two different
      cycles never interleave, on any servers. */
  lemma EvaluationsDoNotInterleave(ttl: nat, attempts: seq<Attempt>, i: nat, j: nat, d: int, e: int, x: Span, y: Span)
    requires Ordered(attempts) && i < j < |attempts|
    requires Wins(ttl, attempts, i) && Wins(ttl, attempts, j)
    requires d <= ttl && Within(x, attempts[i].time, d) && Within(y, attempts[j].time, e)
    ensures x.to <= y.from
  {
    AcquisitionsAreSpaced(ttl, attempts, i, j);
  }

  /** In every history, cycles of the given duration are over before the next begins. */
  ghost predicate CyclesAreSerial(ttl: nat, duration: int) {
    forall attempts: seq<Attempt>, i: nat, j: nat ::
      Ordered(attempts) && i < j < |attempts| && Wins(ttl, attempts, i) && Wins(ttl, attempts, j)
      ==> attempts[i].time + duration <= attempts[j].time
  }

  /** The bound on the duration is exact. */
  lemma SerialIff(ttl: nat, duration: int)
    requires ttl > 0
    ensures CyclesAreSerial(ttl, duration) <==> duration <= ttl
  {
    forall attempts: seq<Attempt>, i: nat, j: nat
      | Ordered(attempts) && i < j < |attempts| && Wins(ttl, attempts, i) && Wins(ttl, attempts, j)
      ensures attempts[i].time + ttl <= attempts[j].time
    {
      AcquisitionsAreSpaced(ttl, attempts, i, j);
    }
    var two := [Attempt(0, 0, false), Attempt(ttl, 1, false)];
    assert two[..0] == [] && two[..1] == [two[0]];
    assert KeyAfter(ttl, [two[0]]) == Until(ttl) by { assert [two[0]][..0] == []; }
    assert Wins(ttl, two, 0) && Wins(ttl, two, 1);
  }
}
