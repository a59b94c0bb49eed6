/** Whole histories of one server: any sequence of evaluations and of administrator
    updates, each made as one step. */
module MonitoringHistory {
  import opened Stores
  import opened Monitoring

  datatype Event = Ping(ok: bool) | AdminUpdate(name: string, ipv4: string)

  /** UpdateServer on one server: the row keeps its status and failures, and the hash
      is overwritten with what the row holds. A missing server is an error, no effect. */
  function UpdateCell(c: Cell, name: string, ipv4: string): Cell {
    if c.row.None? then c
    else
      var row := c.row.value.(name := name, ipv4 := ipv4);
      Cell(Some(Hash(Some(ipv4), row.status, row.failures)), Some(row))
  }

  function Apply(threshold: int, c: Cell, e: Event): Cell {
    match e
    case Ping(ok) => EvaluateCell(threshold, c, ok, NO_FAULTS).0
    case AdminUpdate(name, ipv4) => UpdateCell(c, name, ipv4)
  }

  function Run(threshold: int, c: Cell, es: seq<Event>): Cell {
    if es == [] then c else Apply(threshold, Run(threshold, c, es[..|es| - 1]), es[|es| - 1])
  }

  function Created(name: string, ipv4: string): Cell {
    Cell(Some(Hash(Some(ipv4), Online, 0)), Some(Row(name, ipv4, Online, 0)))
  }

  /** Failed pings since the last success; administrator updates do not count. */
  function Trailing(es: seq<Event>): nat {
    if es == [] then 0
    else
      var rest := es[..|es| - 1];
      match es[|es| - 1]
      case Ping(true) => 0
      case Ping(false) => Trailing(rest) + 1
      case AdminUpdate(_, _) => Trailing(rest)
  }

  /** The length of the most recent unbroken run of failures, whether or not it is over. */
  function LastStreak(es: seq<Event>): nat {
    if es == [] then 0
    else if es[|es| - 1] == Ping(false) then Trailing(es)
    else LastStreak(es[..|es| - 1])
  }

  ghost predicate PingsOnly(es: seq<Event>) {
    forall i :: 0 <= i < |es| ==> es[i].Ping?
  }

  lemma {:induction false} StreakOfTrailing(es: seq<Event>)
    ensures Trailing(es) > 0 ==> LastStreak(es) == Trailing(es)
  {
    if es != [] { StreakOfTrailing(es[..|es| - 1]); }
  }

  /** An update is harmless unless it follows a success that ended an outage too short to
      be reported: no failure is pending, but the last streak is between 1 and the
      threshold. The condition is on the events alone. */
  ghost predicate HarmlessAt(threshold: int, es: seq<Event>, i: nat)
    requires i < |es|
  {
    es[i].AdminUpdate? ==> !(Trailing(es[..i]) == 0 && 0 < LastStreak(es[..i]) < Effective(threshold))
  }

  ghost predicate Harmless(threshold: int, es: seq<Event>) {
    forall i: nat :: i < |es| ==> HarmlessAt(threshold, es, i)
  }

  /** The name and address given by the last update, if there was one. */
  function Naming(name: string, ipv4: string, es: seq<Event>): (string, string) {
    if es == [] then (name, ipv4)
    else if es[|es| - 1].AdminUpdate? then (es[|es| - 1].name, es[|es| - 1].ipv4)
    else Naming(name, ipv4, es[..|es| - 1])
  }

  lemma HarmlessPrefix(threshold: int, es: seq<Event>, n: nat)
    requires Harmless(threshold, es) && n <= |es|
    ensures Harmless(threshold, es[..n])
  {
    forall i: nat | i < n ensures HarmlessAt(threshold, es[..n], i) {
      assert HarmlessAt(threshold, es, i) && es[..n][..i] == es[..i];
    }
  }

  /** Both stores as a closed form of the ping history alone, with no recursion over
      the state machine: Redis counts the trailing failures and starts again from zero
      at the transition, Postgres keeps the last streak that stayed below threshold. */
  lemma {:induction false} PingHistoryClosedForm(threshold: int, name: string, ipv4: string, es: seq<Event>)
    requires PingsOnly(es)
    ensures var t, k, s := Effective(threshold), Trailing(es), LastStreak(es);
            Run(threshold, Created(name, ipv4), es) ==
            Cell(Some(Hash(Some(ipv4), if k < t then Online else Offline, if k < t then k else k - t)),
                 Some(Row(name, ipv4, if k < t then Online else Offline, if s < t then s else 0)))
  {
    if es != [] {
      PingHistoryClosedForm(threshold, name, ipv4, es[..|es| - 1]);
      StreakOfTrailing(es[..|es| - 1]);
      StreakOfTrailing(es);
    }
  }

  /** The same for every history of pings and harmless updates, but for the counter of a
      server that is down, which every update restarts. */
  lemma {:induction false} HistoryClosedForm(threshold: int, name: string, ipv4: string, es: seq<Event>)
    requires Harmless(threshold, es)
    ensures var t, k, s := Effective(threshold), Trailing(es), LastStreak(es);
            var (n, a) := Naming(name, ipv4, es);
            var c := Run(threshold, Created(name, ipv4), es);
            && c.hash.Some? && (k < t ==> c.hash.value.retryCount == k)
            && c == Cell(Some(Hash(Some(a), if k < t then Online else Offline, c.hash.value.retryCount)),
                         Some(Row(n, a, if k < t then Online else Offline, if s < t then s else 0)))
  {
    if es != [] {
      HarmlessPrefix(threshold, es, |es| - 1);
      assert HarmlessAt(threshold, es, |es| - 1);
      HistoryClosedForm(threshold, name, ipv4, es[..|es| - 1]);
      StreakOfTrailing(es[..|es| - 1]);
      StreakOfTrailing(es);
    }
  }

  /** What every error-free history keeps between the two stores. */
  ghost predicate CrossStore(threshold: int, c: Cell) {
    && c.hash.Some? && c.row.Some?
    && c.hash.value.ipv4 == Some(c.row.value.ipv4)
    && c.hash.value.status == c.row.value.status
    && c.hash.value.retryCount >= 0
    && match c.hash.value.status {
         case Offline => c.row.value.failures == 0
         case Online =>
           && (c.hash.value.retryCount == 0 || c.hash.value.retryCount == c.row.value.failures)
           && 0 <= c.row.value.failures < Effective(threshold)
         case Unrecognized(_) => false
       }
  }

  lemma CrossStoreStep(threshold: int, c: Cell, e: Event)
    requires CrossStore(threshold, c)
    ensures CrossStore(threshold, Apply(threshold, c, e))
  {
  }

  /** The invariant together with what it means for detection: an outage of at least
      the threshold is always reported, a server reported down has failed since its
      last success, and the counter of a live server never lags its failures. */
  lemma {:induction false} HistoryInvariant(threshold: int, name: string, ipv4: string, es: seq<Event>)
    ensures var c, k := Run(threshold, Created(name, ipv4), es), Trailing(es);
            && CrossStore(threshold, c)
            && (c.hash.value.status.Online? ==> k <= c.hash.value.retryCount)
            && (k >= Effective(threshold) ==> c.hash.value.status.Offline?)
            && (c.hash.value.status.Offline? ==> k >= 1)
            && (es != [] && es[|es| - 1] == Ping(true) ==> c.hash.value.status.Online? && c.hash.value.retryCount == 0)
  {
    if es != [] {
      HistoryInvariant(threshold, name, ipv4, es[..|es| - 1]);
      CrossStoreStep(threshold, Run(threshold, Created(name, ipv4), es[..|es| - 1]), es[|es| - 1]);
    }
  }

  function Failures(n: nat): seq<Event> {
    seq(n, _ => Ping(false))
  }

  /** From any online state, n further failures report an outage exactly when n is at
      least what the counter leaves to the threshold, and at least one. */
  lemma {:induction false} FailuresFromOnline(threshold: int, c: Cell, n: nat)
    requires c.hash.Some? && c.hash.value.status.Online?
    ensures var r := Run(threshold, c, Failures(n));
            && r.hash.Some?
            && (r.hash.value.status.Offline? <==> n >= 1 && c.hash.value.retryCount + n >= threshold)
            && (r.hash.value.status.Online? ==> r.hash.value.retryCount == c.hash.value.retryCount + n)
            && (r.hash.value.status.Online? || r.hash.value.status.Offline?)
  {
    if n > 0 {
      FailuresFromOnline(threshold, c, n - 1);
      assert Failures(n)[..n - 1] == Failures(n - 1);
    }
  }

  /** "An outage is reported exactly after the threshold" is false once updates are
      interleaved: here one failure after a success is enough although the threshold is 2. */
  lemma UpdateMayReportEarly(name: string, ipv4: string)
    ensures var es := [Ping(false), Ping(true), AdminUpdate(name, ipv4), Ping(false)];
            var r := Run(2, Created(name, ipv4), es);
            Trailing(es) == 1 && r.hash.Some? && r.hash.value.status.Offline?
  {
    var es := [Ping(false), Ping(true), AdminUpdate(name, ipv4), Ping(false)];
    var c := Created(name, ipv4);
    assert es[..3] == [Ping(false), Ping(true), AdminUpdate(name, ipv4)];
    assert es[..3][..2] == [Ping(false), Ping(true)];
    assert [Ping(false), Ping(true)][..1] == [Ping(false)];
    assert [Ping(false)][..0] == [];
    assert Run(2, c, []) == c;
    var c1 := Run(2, c, [Ping(false)]);
    assert c1 == Apply(2, c, Ping(false));
    var c2 := Run(2, c, [Ping(false), Ping(true)]);
    assert c2 == Apply(2, c1, Ping(true));
    var c3 := Run(2, c, es[..3]);
    assert c3 == Apply(2, c2, AdminUpdate(name, ipv4));
    assert Run(2, c, es) == Apply(2, c3, Ping(false));
    assert Trailing([Ping(false), Ping(true)]) == 0;
  }

  ghost predicate Reported(threshold: int, c: Cell, n: nat) {
    var r := Run(threshold, c, Failures(n));
    r.hash.Some? && r.hash.value.status.Offline?
  }

  /** Detection is exact from here on: for every number of further failures, an outage
      is reported if and only if the failures since the last success reach the threshold. */
  ghost predicate ExactFrom(threshold: int, c: Cell, k: nat) {
    forall n: nat :: Reported(threshold, c, n) <==> k + n >= Effective(threshold)
  }

  /** The exact condition, readable off the Redis hash: the counter equals the trailing
      failures. */
  lemma ExactIff(threshold: int, c: Cell, k: nat)
    requires CrossStore(threshold, c) && c.hash.value.status.Online? && k <= c.hash.value.retryCount
    ensures ExactFrom(threshold, c, k) <==> c.hash.value.retryCount == k
  {
    var t := Effective(threshold);
    forall n: nat
      ensures Reported(threshold, c, n) <==> c.hash.value.retryCount + n >= t
    {
      FailuresFromOnline(threshold, c, n);
    }
    if c.hash.value.retryCount != k {
      assert !(Reported(threshold, c, t - c.hash.value.retryCount) <==> k + (t - c.hash.value.retryCount) >= t);
    }
  }

  /** And the guard that decides it at the moment of an update: an update of a live
      server spoils exact detection if and only if Postgres still remembers failures
      that a later success has already cleared from Redis. */
  lemma UpdateKeepsExactIff(threshold: int, c: Cell, name: string, ipv4: string)
    requires CrossStore(threshold, c) && c.hash.value.status.Online?
    ensures ExactFrom(threshold, UpdateCell(c, name, ipv4), c.hash.value.retryCount)
            <==> !(c.hash.value.retryCount == 0 && c.row.value.failures > 0)
  {
    ExactIff(threshold, UpdateCell(c, name, ipv4), c.hash.value.retryCount);
  }

  /** Once down, a server stays reported under further failures. */
  lemma {:induction false} FailuresFromOffline(threshold: int, c: Cell, n: nat)
    requires c.hash.Some? && c.hash.value.status.Offline?
    ensures Reported(threshold, c, n)
  {
    if n > 0 {
      FailuresFromOffline(threshold, c, n - 1);
      assert Failures(n)[..n - 1] == Failures(n - 1);
    }
  }

  /** Exact detection, at every moment of the history. */
  ghost predicate ExactAt(threshold: int, name: string, ipv4: string, es: seq<Event>, i: nat)
    requires i <= |es|
  {
    ExactFrom(threshold, Run(threshold, Created(name, ipv4), es[..i]), Trailing(es[..i]))
  }

  ghost predicate ExactThroughout(threshold: int, name: string, ipv4: string, es: seq<Event>) {
    forall i: nat :: i <= |es| ==> ExactAt(threshold, name, ipv4, es, i)
  }

  lemma HarmlessIsExact(threshold: int, name: string, ipv4: string, es: seq<Event>)
    requires Harmless(threshold, es)
    ensures ExactFrom(threshold, Run(threshold, Created(name, ipv4), es), Trailing(es))
  {
    var c, k := Run(threshold, Created(name, ipv4), es), Trailing(es);
    HistoryClosedForm(threshold, name, ipv4, es);
    HistoryInvariant(threshold, name, ipv4, es);
    if c.hash.value.status.Online? {
      ExactIff(threshold, c, k);
    } else {
      forall n: nat ensures Reported(threshold, c, n) <==> k + n >= Effective(threshold) {
        FailuresFromOffline(threshold, c, n);
      }
    }
  }

  /** The first harmful update leaves a counter ahead of the failures. */
  lemma HarmfulIsNotExact(threshold: int, name: string, ipv4: string, es: seq<Event>, i: nat)
    requires i < |es| && Harmless(threshold, es[..i]) && !HarmlessAt(threshold, es, i)
    ensures !ExactAt(threshold, name, ipv4, es, i + 1)
  {
    HistoryClosedForm(threshold, name, ipv4, es[..i]);
    HistoryInvariant(threshold, name, ipv4, es[..i]);
    assert es[..i + 1][..i] == es[..i];
    UpdateKeepsExactIff(threshold, Run(threshold, Created(name, ipv4), es[..i]), es[i].name, es[i].ipv4);
  }

  lemma {:induction false} FirstHarm(threshold: int, es: seq<Event>) returns (i: nat)
    requires !Harmless(threshold, es)
    ensures i < |es| && Harmless(threshold, es[..i]) && !HarmlessAt(threshold, es, i)
  {
    i :| i < |es| && !HarmlessAt(threshold, es, i);
    if !Harmless(threshold, es[..i]) {
      var n := i;
      i := FirstHarm(threshold, es[..n]);
      assert es[..n][..i] == es[..i];
    }
  }

  /** Over whole histories: an outage is reported exactly when its failures reach the
      threshold, at every moment and whatever failures follow it, if and only if every
      update is harmless. */
  lemma ExactHistoryIff(threshold: int, name: string, ipv4: string, es: seq<Event>)
    ensures ExactThroughout(threshold, name, ipv4, es) <==> Harmless(threshold, es)
  {
    if Harmless(threshold, es) {
      forall i: nat | i <= |es| ensures ExactAt(threshold, name, ipv4, es, i) {
        HarmlessPrefix(threshold, es, i);
        HarmlessIsExact(threshold, name, ipv4, es[..i]);
      }
    } else {
      var i := FirstHarm(threshold, es);
      HarmfulIsNotExact(threshold, name, ipv4, es, i);
    }
  }

  // ---- Answers, and statuses the machine does not know ---------------------------------

  /** The answer of an evaluation and what it leaves, for every combination of store errors:
      each error ends it where it occurs, and Postgres is reached only by a transition or by
      a failure counted while ONLINE. */
  lemma EvaluationUnderFaults(threshold: int, c: Cell, ping: bool, f: Faults)
    ensures var (r, answer) := EvaluateCell(threshold, c, ping, f);
            var good := EvaluateCell(threshold, c, ping, NO_FAULTS).0;
            && (answer == StateError <==> f.get)
            && (answer == StateNotFound <==> !f.get && c.hash.None?)
            && (answer == SetError <==> !f.get && c.hash.Some? && f.set_)
            && (answer == StateError || answer == StateNotFound || answer == SetError ==> r == c)
            && (answer == RowError ==> f.db && r == c.(hash := good.hash))
            && (answer == Done ==> r == good)
            && (!f.get && !f.set_ && f.db && c.hash.Some? && !c.hash.value.status.Unrecognized? && c.hash.value.retryCount >= 0 ==>
                  (answer == RowError <==>
                     good.hash.value.status != c.hash.value.status || (!ping && c.hash.value.status.Online?)))
  {
  }

  /** An empty status, as that of a hash that only holds an address, counts as ONLINE. */
  lemma EmptyStatusIsOnline(threshold: int, c: Cell, ping: bool, f: Faults)
    requires c.hash.Some? && c.hash.value.status == Unrecognized("") && !f.get && !f.set_
    ensures var online := c.(hash := Some(c.hash.value.(status := Online)));
            EvaluateCell(threshold, c, ping, f) == EvaluateCell(threshold, online, ping, f)
  {
  }

  /** Any other unknown status is kept for ever, with the row, and its failures counted. */
  lemma {:induction false} UnknownStatusIsKept(threshold: int, c: Cell, es: seq<Event>)
    requires c.hash.Some? && c.hash.value.status.Unrecognized? && c.hash.value.status.text != "" && PingsOnly(es)
    ensures var n := if Trailing(es) == |es| then c.hash.value.retryCount + |es| else Trailing(es);
            Run(threshold, c, es) == c.(hash := Some(c.hash.value.(retryCount := n)))
    ensures Trailing(es) <= |es|
  {
    if es != [] { UnknownStatusIsKept(threshold, c, es[..|es| - 1]); }
  }

  /** A job without an address, or one that cannot be read, leaves the server alone; any
      other job is an evaluation. */
  lemma JobNeedsAddress(threshold: int, c: Cell, ping: bool, f: Faults)
    ensures var addressed := !f.hget && c.hash.Some? && c.hash.value.ipv4.Some? && c.hash.value.ipv4.value != "";
            ProcessCell(threshold, c, ping, f) == if addressed then EvaluateCell(threshold, c, ping, f).0 else c
  {
  }

  // ---- Divergence and self-healing ------------------------------------------------

  ghost predicate Agree(c: Cell) {
    c.hash.Some? && c.row.Some? && c.hash.value.status == c.row.value.status
  }

  /** The two statuses disagree, as after a Postgres write that failed. */
  ghost predicate Diverged(c: Cell) {
    && c.hash.Some? && c.row.Some?
    && (c.hash.value.status.Online? || c.hash.value.status.Offline?)
    && c.hash.value.status != c.row.value.status
    && c.hash.value.retryCount >= 0
  }

  ghost predicate Contradicts(c: Cell, ping: bool)
    requires c.hash.Some?
  {
    ping != c.hash.value.status.Online?
  }

  /** A failed Postgres write at a transition is what makes the stores diverge, and the
      Redis side is then the same as if the write had succeeded. */
  lemma FailedWriteDiverges(threshold: int, c: Cell, ping: bool)
    requires CrossStore(threshold, c)
    ensures var bad := EvaluateCell(threshold, c, ping, NO_FAULTS.(db := true)).0;
            var good := EvaluateCell(threshold, c, ping, NO_FAULTS).0;
            && bad.hash == good.hash
            && bad.row == c.row
            && (Diverged(bad) <==> good.hash.value.status != c.hash.value.status)
  {
  }

  /** One evaluation heals a divergence exactly when its ping contradicts Redis, and
      otherwise leaves the row alone. */
  lemma HealStep(threshold: int, c: Cell, ping: bool)
    requires Diverged(c)
    ensures var r := EvaluateCell(threshold, c, ping, NO_FAULTS).0;
            && (Agree(r) <==> Contradicts(c, ping))
            && (!Contradicts(c, ping) ==> r.row == c.row && Diverged(r) && r.hash.value.status == c.hash.value.status)
            && (Contradicts(c, ping) ==> r.hash.value.retryCount == r.row.value.failures)
  {
  }

  /** Agreement, on any status but the empty one, is kept by every ping and every update. */
  lemma AgreementStays(threshold: int, c: Cell, e: Event)
    requires Agree(c) && c.hash.value.status != Unrecognized("")
    ensures var r := Apply(threshold, c, e); Agree(r) && r.hash.value.status != Unrecognized("")
  {
  }

  /** An update copies the row's status to Redis, and so ends a divergence as a
      contradicting ping does, but in favour of Postgres. */
  ghost predicate Heals(c: Cell, e: Event)
    requires c.hash.Some?
  {
    e.AdminUpdate? || Contradicts(c, e.ok)
  }

  /** Over any further history the divergence is healed if and only if some event in it is
      an update or a ping that contradicts the status Redis held when the stores diverged. */
  lemma {:induction false} HealHistory(threshold: int, c: Cell, es: seq<Event>)
    requires Diverged(c) && (PingsOnly(es) || c.row.value.status != Unrecognized(""))
    ensures var r, healed := Run(threshold, c, es), exists i :: 0 <= i < |es| && Heals(c, es[i]);
            && (Agree(r) <==> healed)
            && (!healed ==> Diverged(r) && r.hash.value.status == c.hash.value.status && r.row == c.row)
            && (healed ==> r.hash.value.status != Unrecognized(""))
  {
    if es != [] {
      var rest, last := es[..|es| - 1], es[|es| - 1];
      HealHistory(threshold, c, rest);
      var r := Run(threshold, c, rest);
      if exists i :: 0 <= i < |rest| && Heals(c, rest[i]) {
        var i :| 0 <= i < |rest| && Heals(c, rest[i]);
        assert Heals(c, es[i]);
        AgreementStays(threshold, r, last);
      } else {
        assert forall i :: 0 <= i < |rest| ==> es[i] == rest[i] && !Heals(c, es[i]);
        if last.Ping? { HealStep(threshold, r, last.ok); }
        assert Heals(c, last) <==> Heals(c, es[|es| - 1]);
      }
    }
  }

  /** So an update can undo a detected outage: if the Postgres write of the transition
      failed, the update that follows makes both stores report ONLINE again. */
  lemma UpdateMayUndoOutage(threshold: int, c: Cell, name: string, ipv4: string)
    requires CrossStore(threshold, c) && c.hash.value.status.Online? && c.hash.value.retryCount + 1 >= threshold
    ensures var detected := EvaluateCell(threshold, c, false, NO_FAULTS.(db := true)).0;
            var r := UpdateCell(detected, name, ipv4);
            && detected.hash.value.status.Offline?
            && Agree(r) && r.hash.value.status.Online?
  {
  }
}
