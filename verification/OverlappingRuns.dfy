/** Administrator operations and evaluations that overlap, store call by store call. An
    update reads the row, writes it and then the hash; an evaluation reads the hash,
    writes it and then the row. Where the two overlap on one server a write can be lost,
    and this module says exactly when; where they do not, whatever happens at the same
    time to other servers, each server still has the contents of its own history. */
module OverlappingRuns {
  import opened Stores
  import opened Text
  import opened Monitoring
  import opened MonitoringHistory
  import opened Inventory
  import opened BulkImport
  import InventoryIndex
  import WorkerPool
  import SystemRuns

  // ---- One update among the writes of the monitor -----------------------------------

  ghost predicate MonitorOnly(ms: seq<InventoryIndex.Step>) {
    forall m :: m in ms ==> m.MonitorSetState? || m.MonitorSetRow?
  }

  /** What the writes of the monitor make of one server. */
  function Monitored(c: Cell, id: Id, ms: seq<InventoryIndex.Step>): Cell {
    if ms == [] then c
    else
      var before, m := Monitored(c, id, ms[..|ms| - 1]), ms[|ms| - 1];
      match m
      case MonitorSetState(x, status, n) => if x == id then SetState(before, status, n) else before
      case MonitorSetRow(x, status, n) => if x == id then SetRow(before, status, n) else before
      case _ => before
  }

  lemma {:induction false} MonitoredRun(s: InventoryIndex.System, ms: seq<InventoryIndex.Step>, id: Id)
    requires MonitorOnly(ms)
    ensures var r := InventoryIndex.Exec(s, ms);
            && r.Some? && r.value.admin == s.admin
            && CellOf(r.value.world, id) == Monitored(CellOf(s.world, id), id, ms)
            && InventoryIndex.SameNames(s.world.table, r.value.world.table)
  {
    if ms != [] {
      var rest, m := ms[..|ms| - 1], ms[|ms| - 1];
      MonitoredRun(s, rest, id);
      var w := InventoryIndex.Exec(s, rest).value.world;
      if m.MonitorSetState? {
        PutGet(w, m.id, SetState(CellOf(w, m.id), m.status, m.retryCount));
        InventoryIndex.SetStateIsInvisible(w, m.id, m.status, m.retryCount);
      } else {
        PutGet(w, m.id, SetRow(CellOf(w, m.id), m.status, m.failures));
        InventoryIndex.SetRowIsInvisible(w, m.id, m.status, m.failures);
      }
    }
  }

  lemma {:induction false} ExecSplit(s: InventoryIndex.System, a: seq<InventoryIndex.Step>, b: seq<InventoryIndex.Step>)
    requires InventoryIndex.Exec(s, a).Some?
    ensures InventoryIndex.Exec(s, a + b) == InventoryIndex.Exec(InventoryIndex.Exec(s, a).value, b)
  {
    if b == [] {
      assert a + b == a;
    } else {
      assert (a + b)[..|a + b| - 1] == a + b[..|b| - 1];
      ExecSplit(s, a, b[..|b| - 1]);
    }
  }

  lemma ExecOne(s: InventoryIndex.System, e: InventoryIndex.Step)
    requires InventoryIndex.Enabled(s, e)
    ensures InventoryIndex.Exec(s, [e]) == Some(InventoryIndex.Next(s, e))
  {
    assert [e][..0] == [] && InventoryIndex.Exec(s, []) == Some(s);
  }

  /** The status and failures of a row after some writes are those of the last write, or
      unchanged, whatever they were before. */
  lemma {:induction false} RowWrites(c: Cell, d: Cell, id: Id, ms: seq<InventoryIndex.Step>)
    requires c.row.Some? && d.row.Some?
    ensures var x, y := Monitored(c, id, ms).row, Monitored(d, id, ms).row;
            && x.Some? && x.value.name == c.row.value.name && x.value.ipv4 == c.row.value.ipv4
            && y.Some? && y.value.name == d.row.value.name && y.value.ipv4 == d.row.value.ipv4
            && ((x.value.status == y.value.status && x.value.failures == y.value.failures) || (x == c.row && y == d.row))
  {
    if ms != [] { RowWrites(c, d, id, ms[..|ms| - 1]); }
  }

  lemma {:induction false} MonitoredConcat(c: Cell, id: Id, a: seq<InventoryIndex.Step>, b: seq<InventoryIndex.Step>)
    ensures Monitored(c, id, a + b) == Monitored(Monitored(c, id, a), id, b)
  {
    if b == [] {
      assert a + b == a;
    } else {
      assert (a + b)[..|a + b| - 1] == a + b[..|b| - 1];
      MonitoredConcat(c, id, a, b[..|b| - 1]);
    }
  }

  /** The read of an update, monitor writes, its write, more monitor writes, its HSET. */
  function StraddledUpdate(id: Id, name: string, ipv4: string, ms1: seq<InventoryIndex.Step>, ms2: seq<InventoryIndex.Step>): seq<InventoryIndex.Step> {
    ([InventoryIndex.BeginUpdate(id, name, ipv4)] + ms1) + ([InventoryIndex.WriteUpdate] + ms2) + [InventoryIndex.SendNext]
  }

  lemma SameHolders(t: Table, t': Table, text: string, except: Option<Id>)
    requires InventoryIndex.SameNames(t, t')
    ensures NameHeld(t', text, except) ==> NameHeld(t, text, except)
    ensures Ipv4Held(t', text, except) ==> Ipv4Held(t, text, except)
  {
  }

  lemma StraddledWrite(w: World, s: InventoryIndex.System, id: Id, name: string, ipv4: string)
    requires UniqueTrimmed(w.table) && Update(w, id, name, ipv4, NO_ADMIN_FAULTS).1.Ok?
    requires InventoryIndex.SameNames(w.table, s.world.table) && s.admin == InventoryIndex.Editing(id, w.table[id], name, ipv4)
    ensures var s' := InventoryIndex.Next(s, InventoryIndex.WriteUpdate);
            var read := w.table[id].(name := Trim(name), ipv4 := Trim(ipv4));
            s'.admin == InventoryIndex.Mirroring(InventoryIndex.UpsertCommands(id, read)) && CellOf(s'.world, id).row == Some(read)
  {
    var t, row := s.world.table, w.table[id];
    InventoryIndex.SameNamesSameIndex(w.table, t);
    UpdateRowIsClean(t, id, row, name, ipv4, NO_ADMIN_FAULTS);
    SameHolders(w.table, t, Trim(name), Some(id));
    SameHolders(w.table, t, Trim(ipv4), Some(id));
  }

  lemma {:induction false} RowsAlike(c: Cell, d: Cell, id: Id, ms: seq<InventoryIndex.Step>)
    requires c.row == d.row
    ensures Monitored(c, id, ms).row == Monitored(d, id, ms).row
  {
    if ms != [] { RowsAlike(c, d, id, ms[..|ms| - 1]); }
  }

  /** The update writes back what it read, in both stores. */
  lemma StraddledCell(w: World, id: Id, name: string, ipv4: string, ms1: seq<InventoryIndex.Step>, ms2: seq<InventoryIndex.Step>)
    requires UniqueTrimmed(w.table) && MonitorOnly(ms1) && MonitorOnly(ms2)
    requires Update(w, id, name, ipv4, NO_ADMIN_FAULTS).1.Ok?
    ensures id in w.table
    ensures var r := InventoryIndex.Exec(InventoryIndex.System(w, InventoryIndex.Idle), StraddledUpdate(id, name, ipv4, ms1, ms2));
            var read := w.table[id].(name := Trim(name), ipv4 := Trim(ipv4));
            && r.Some?
            && CellOf(r.value.world, id) ==
               Cell(Some(Hash(Some(read.ipv4), read.status, read.failures)), Monitored(Cell(None, Some(read)), id, ms2).row)
  {
    var s0, begin := InventoryIndex.System(w, InventoryIndex.Idle), InventoryIndex.BeginUpdate(id, name, ipv4);
    ExecOne(s0, begin);
    var s1 := InventoryIndex.Next(s0, begin);
    MonitoredRun(s1, ms1, id);
    ExecSplit(s0, [begin], ms1);
    var s2 := InventoryIndex.Exec(s1, ms1).value;
    StraddledWrite(w, s2, id, name, ipv4);
    var s3 := InventoryIndex.Next(s2, InventoryIndex.WriteUpdate);
    ExecOne(s2, InventoryIndex.WriteUpdate);
    MonitoredRun(s3, ms2, id);
    ExecSplit(s2, [InventoryIndex.WriteUpdate], ms2);
    var s4 := InventoryIndex.Exec(s3, ms2).value;
    var read := w.table[id].(name := Trim(name), ipv4 := Trim(ipv4));
    RowsAlike(CellOf(s3.world, id), Cell(None, Some(read)), id, ms2);
    ExecOne(s4, InventoryIndex.SendNext);
    ExecSplit(s0, [begin] + ms1, [InventoryIndex.WriteUpdate] + ms2);
    ExecSplit(s0, ([begin] + ms1) + ([InventoryIndex.WriteUpdate] + ms2), [InventoryIndex.SendNext]);
  }

  /** An update that monitor writes fall into acts as one step made after these writes if
      and only if they leave the row with the status and failures that the update read. */
  lemma StraddledUpdateIff(w: World, id: Id, name: string, ipv4: string, ms1: seq<InventoryIndex.Step>, ms2: seq<InventoryIndex.Step>)
    requires UniqueTrimmed(w.table) && MonitorOnly(ms1) && MonitorOnly(ms2)
    requires Update(w, id, name, ipv4, NO_ADMIN_FAULTS).1.Ok?
    ensures var r := InventoryIndex.Exec(InventoryIndex.System(w, InventoryIndex.Idle), StraddledUpdate(id, name, ipv4, ms1, ms2));
            var now := Monitored(CellOf(w, id), id, ms1 + ms2);
            && r.Some? && now.row.Some? && id in w.table
            && (CellOf(r.value.world, id) == UpdateCell(now, Trim(name), Trim(ipv4))
                <==> now.row.value.status == w.table[id].status && now.row.value.failures == w.table[id].failures)
  {
    StraddledCell(w, id, name, ipv4, ms1, ms2);
    var c, read := CellOf(w, id), w.table[id].(name := Trim(name), ipv4 := Trim(ipv4));
    MonitoredConcat(c, id, ms1, ms2);
    RowWrites(c, c, id, ms1);
    RowWrites(Monitored(c, id, ms1), Cell(None, Some(read)), id, ms2);
  }

  /** So "detection is never late" needs updates to be single steps: here the evaluation
      that detects the outage falls between the read and the write of an update that
      changes nothing, and both stores report the server ONLINE afterwards. */
  lemma OutageMayBeHidden(threshold: int, w: World, id: Id)
    requires UniqueTrimmed(w.table) && id in w.table && id in w.info
    requires w.table[id].status.Online? && w.info[id].status.Online? && w.info[id].retryCount + 1 >= threshold
    ensures var detected := EvaluateCell(threshold, CellOf(w, id), false, Monitoring.NO_FAULTS).0;
            var ms := [InventoryIndex.MonitorSetState(id, Offline, 0), InventoryIndex.MonitorSetRow(id, Offline, 0)];
            var r := InventoryIndex.Exec(InventoryIndex.System(w, InventoryIndex.Idle),
                                         StraddledUpdate(id, w.table[id].name, w.table[id].ipv4, ms, []));
            && detected.hash.Some? && detected.hash.value.status.Offline? && detected == Monitored(CellOf(w, id), id, ms)
            && r.Some? && id in r.value.world.info && id in r.value.world.table
            && r.value.world.info[id].status.Online? && r.value.world.table[id].status.Online?
  {
    var row, c := w.table[id], CellOf(w, id);
    var e1, e2 := InventoryIndex.MonitorSetState(id, Offline, 0), InventoryIndex.MonitorSetRow(id, Offline, 0);
    assert [e1, e2][..1] == [e1] && [e1][..0] == [] && Monitored(c, id, []) == c;
    assert Monitored(c, id, [e1]) == SetState(c, Offline, 0);
    TrimTrims(row.name);
    TrimTrims(row.ipv4);
    StraddledCell(w, id, row.name, row.ipv4, [e1, e2], []);
    assert Monitored(Cell(None, Some(row)), id, []).row == Some(row);
  }

  /** The other way round, a whole update between the two writes of one evaluation leaves
      the statuses in agreement if and only if the evaluation was not a transition. */
  lemma SplitEvaluationIff(c: Cell, v: Verdict, name: string, ipv4: string)
    requires c.row.Some?
    ensures var after := SetRow(UpdateCell(SetState(c, v.status, v.retryCount), name, ipv4), v.status, v.retryCount);
            Agree(after) <==> v.status == c.row.value.status
  {
  }

  /** What an evaluation writes once it has decided. */
  function Conclude(c: Cell, v: Verdict): Cell {
    var c' := SetState(c, v.status, v.retryCount);
    if v.toPostgres then SetRow(c', v.status, v.retryCount) else c'
  }

  /** That is what is left of a job that has read the state. */
  lemma ConcludesTheJob(threshold: int, ping: Id -> bool, id: Id, ok: bool, state: Hash, c: Cell)
    ensures WorkerPool.Resume(SystemRuns.CycleEnv(threshold, ping), WorkerPool.Loaded(id, ok, state), c)
            == Conclude(c, Decide(threshold, state, ok))
  {
  }

  function Evaluated(threshold: int, c: Cell, ping: bool): Cell {
    EvaluateCell(threshold, c, ping, Monitoring.NO_FAULTS).0
  }

  /** A whole update between the read of an evaluation and its first write. */
  function StaleEvaluation(threshold: int, c: Cell, ping: bool, name: string, ipv4: string): Cell
    requires c.hash.Some?
  {
    Conclude(UpdateCell(c, name, ipv4), Decide(threshold, c.hash.value, ping))
  }

  /** It amounts to one of the two after the other, in one order or the other, unless a
      server already down with failures counted since fails again; */
  lemma StaleEvaluationIff(threshold: int, c: Cell, ping: bool, name: string, ipv4: string)
    requires CrossStore(threshold, c)
    ensures var r := StaleEvaluation(threshold, c, ping, name, ipv4);
            (r == Evaluated(threshold, UpdateCell(c, name, ipv4), ping) || r == UpdateCell(Evaluated(threshold, c, ping), name, ipv4))
            <==> !(c.hash.value.status.Offline? && !ping && c.hash.value.retryCount > 0)
  {
  }

  /** and even then only the counter of the server that is down differs, and the relation
      between the stores is kept. */
  lemma StaleEvaluationKeeps(threshold: int, c: Cell, ping: bool, name: string, ipv4: string)
    requires CrossStore(threshold, c)
    ensures var r, e := StaleEvaluation(threshold, c, ping, name, ipv4), Evaluated(threshold, UpdateCell(c, name, ipv4), ping);
            && CrossStore(threshold, r)
            && (c.hash.value.status.Offline? ==> r.row == e.row && r.hash.value.status == e.hash.value.status)
  {
  }

  // ---- Two evaluations of one server ------------------------------------------------

  /** Cycles that outlast the lock can overlap: both evaluations read the state before
      either writes, and the first then writes before the second. */
  function Overlapped(threshold: int, c: Cell, first: bool, second: bool): Cell
    requires c.hash.Some?
  {
    Conclude(Conclude(c, Decide(threshold, c.hash.value, first)), Decide(threshold, c.hash.value, second))
  }

  /** Two that agree count as one. */
  lemma OverlapCountsOnce(threshold: int, c: Cell, ping: bool)
    requires c.hash.Some?
    ensures Overlapped(threshold, c, ping, ping) == Evaluated(threshold, c, ping)
  {
  }

  /** So a failure is lost, and the outage that the two failures complete goes unreported
      if and only if it lacked exactly two. */
  lemma OverlapIsLateIff(threshold: int, c: Cell)
    requires c.hash.Some? && c.hash.value.status.Online?
    ensures var r, twice := Overlapped(threshold, c, false, false), Evaluated(threshold, Evaluated(threshold, c, false), false);
            && r.hash.Some? && twice.hash.Some?
            && (twice.hash.value.status.Offline? && !r.hash.value.status.Offline? <==> c.hash.value.retryCount + 2 == threshold)
  {
    OverlapCountsOnce(threshold, c, false);
  }

  /** Two that disagree leave the stores in disagreement if and only if the one that writes
      first makes a transition. */
  lemma OverlapDivergesIff(threshold: int, c: Cell, first: bool)
    requires CrossStore(threshold, c)
    ensures Agree(Overlapped(threshold, c, first, !first))
            <==> Decide(threshold, c.hash.value, first).status == c.hash.value.status
  {
  }

  // ---- Overlap on different servers -------------------------------------------------

  /** The stores and the administrator, one job under way for each of some servers, and
      the history of each server in the table. */
  datatype State = State(sys: InventoryIndex.System, jobs: map<Id, WorkerPool.Worker>, traces: map<Id, SystemRuns.Trace>)

  /** A job enters when its ping has been answered; each later store call of it is a step. */
  datatype Step =
    | Admin(e: InventoryIndex.Step)
    | Answer(id: Id, ok: bool)
    | Work(id: Id)

  function Env(threshold: int): WorkerPool.Env {
    SystemRuns.CycleEnv(threshold, (_: Id) => false)
  }

  /** The job has read the state of the server and has not yet made its last write. */
  predicate Evaluating(s: State, id: Id) {
    id in s.jobs && (s.jobs[id].Loaded? || s.jobs[id].Saved?)
  }

  function Todo(a: InventoryIndex.Admin): seq<InventoryIndex.Command> {
    if a.Mirroring? then a.todo else []
  }

  ghost predicate Touches(cs: seq<InventoryIndex.Command>, id: Id) {
    exists c :: c in cs && InventoryIndex.Touched(c) == id
  }

  /** The administrator has read the row of the server, or written it, and has not yet
      sent the last command for it. */
  ghost predicate InHand(a: InventoryIndex.Admin, id: Id) {
    (a.Editing? && a.id == id) || Touches(Todo(a), id)
  }

  /** The two do not overlap on one server; nothing else is excluded. */
  ghost predicate Enabled(s: State, e: Step) {
    match e
    case Admin(a) =>
      && !a.MonitorSetState? && !a.MonitorSetRow?
      && InventoryIndex.Enabled(s.sys, a) && InventoryIndex.Proper(s.sys, a)
      && (a.BeginUpdate? || a.BeginDelete? ==> !Evaluating(s, a.id))
    case Answer(id, _) => id !in s.jobs
    case Work(id) => id in s.jobs && s.jobs[id].Job() == Some(id) && (s.jobs[id].Pinged? ==> !InHand(s.sys.admin, id))
  }

  function AdminTraces(s: State, a: InventoryIndex.Step): map<Id, SystemRuns.Trace>
    requires InventoryIndex.Enabled(s.sys, a)
  {
    var t, table := s.traces, s.sys.world.table;
    match a
    case BeginCreate(id, name, ipv4) =>
      if CreateRow(table, id, name, ipv4, NO_ADMIN_FAULTS).Ok? then t[id := SystemRuns.Trace(Trim(name), Trim(ipv4), [])] else t
    case WriteUpdate => (
      var Editing(id, row, name, ipv4) := s.sys.admin;
      if UpdateRow(table, id, row, name, ipv4, NO_ADMIN_FAULTS).Ok?
      then SystemRuns.Log(t, id, AdminUpdate(Trim(name), Trim(ipv4))) else t)
    case BeginDelete(id) => t - {id}
    case BeginImport(batch, newId, used) =>
      SystemRuns.LogCreated(t, AcceptAll(newId, Progress(table, used, [], []), batch).created)
    case _ => t
  }

  function WorkOn(threshold: int, s: State, id: Id): State
    requires id in s.jobs && s.jobs[id].Job() == Some(id)
  {
    var w, k := s.sys.world, s.jobs[id];
    var (c, k') := WorkerPool.JobStep(Env(threshold), k, CellOf(w, id));
    State(s.sys.(world := Put(w, id, c)),
          if k'.Waiting? then s.jobs - {id} else s.jobs[id := k'],
          if k'.Loaded? then SystemRuns.Log(s.traces, id, Ping(k'.ok)) else s.traces)
  }

  ghost function Next(threshold: int, s: State, e: Step): State
    requires Enabled(s, e)
  {
    match e
    case Admin(a) => State(InventoryIndex.Next(s.sys, a), s.jobs, AdminTraces(s, a))
    case Answer(id, ok) => s.(jobs := s.jobs[id := WorkerPool.Pinged(id, ok)])
    case Work(id) => WorkOn(threshold, s, id)
  }

  ghost function Exec(threshold: int, s: State, steps: seq<Step>): Option<State> {
    if steps == [] then Some(s)
    else match Exec(threshold, s, steps[..|steps| - 1])
      case None => None
      case Some(s') => if Enabled(s', steps[|steps| - 1]) then Some(Next(threshold, s', steps[|steps| - 1])) else None
  }

  // ---- The invariant ----------------------------------------------------------------

  function SendCell(c: Cell, id: Id, x: InventoryIndex.Command): Cell {
    if x.id != id then c
    else match x
      case HSet(_, ipv4, status, n) => c.(hash := Some(Hash(Some(ipv4), status, n)))
      case Del(_) => c.(hash := None)
      case _ => c
  }

  function SendCells(c: Cell, id: Id, cs: seq<InventoryIndex.Command>): Cell
    decreases |cs|
  {
    if cs == [] then c else SendCells(SendCell(c, id, cs[0]), id, cs[1..])
  }

  /** The server once the job or the operation that has it in hand is over. */
  function Settled(threshold: int, s: State, id: Id): Cell
    requires id in s.jobs ==> s.jobs[id].Job() == Some(id)
  {
    var c := CellOf(s.sys.world, id);
    if Evaluating(s, id) then WorkerPool.Resume(Env(threshold), s.jobs[id], c) else SendCells(c, id, Todo(s.sys.admin))
  }

  function Recorded(threshold: int, t: map<Id, SystemRuns.Trace>, id: Id): Cell {
    if id in t then SystemRuns.Replay(threshold, t[id]) else Cell(None, None)
  }

  ghost predicate Separate(s: State) {
    && (forall id :: id in s.jobs ==> s.jobs[id].Job() == Some(id) && !s.jobs[id].Taken? && !s.jobs[id].Addressed?)
    && (forall id :: Evaluating(s, id) ==> id in s.traces && !InHand(s.sys.admin, id))
    && (s.sys.admin.Editing? ==> Lookup(s.sys.world.table, s.sys.admin.id) == Some(s.sys.admin.row))
    && s.traces.Keys == s.sys.world.table.Keys
  }

  ghost predicate Right(threshold: int, s: State, id: Id)
    requires id in s.jobs ==> s.jobs[id].Job() == Some(id)
  {
    Settled(threshold, s, id) == Recorded(threshold, s.traces, id)
  }

  ghost predicate Kept(threshold: int, s: State) {
    Separate(s) && forall id :: Right(threshold, s, id)
  }

  ghost predicate Inv(threshold: int, s: State) {
    InventoryIndex.Inv(s.sys) && Kept(threshold, s)
  }

  lemma {:induction false} Untouched(c: Cell, id: Id, cs: seq<InventoryIndex.Command>)
    requires !Touches(cs, id)
    ensures SendCells(c, id, cs) == c
    decreases |cs|
  {
    if cs != [] {
      assert cs[0] in cs && forall x :: x in cs[1..] ==> x in cs;
      Untouched(c, id, cs[1..]);
    }
  }

  lemma AtRest(threshold: int, s: State, id: Id)
    requires Kept(threshold, s) && !Evaluating(s, id) && !InHand(s.sys.admin, id)
    ensures CellOf(s.sys.world, id) == Recorded(threshold, s.traces, id)
  {
    assert Right(threshold, s, id);
    Untouched(CellOf(s.sys.world, id), id, Todo(s.sys.admin));
  }

  lemma LogEvent(threshold: int, t: map<Id, SystemRuns.Trace>, id: Id, e: Event)
    requires id in t
    ensures var t' := SystemRuns.Log(t, id, e);
            && t'.Keys == t.Keys
            && Recorded(threshold, t', id) == MonitoringHistory.Apply(threshold, Recorded(threshold, t, id), e)
            && forall x :: x != id ==> Recorded(threshold, t', x) == Recorded(threshold, t, x)
  {
    SystemRuns.RunAppend(threshold, Created(t[id].name, t[id].ipv4), t[id].events, e);
  }

  // ---- Steps of the jobs ------------------------------------------------------------

  /** A step of a job is a monitor write or nothing, so the index does not see it. */
  lemma WorkIndex(threshold: int, s: State, id: Id)
    requires id in s.jobs && s.jobs[id].Job() == Some(id)
    ensures var s' := WorkOn(threshold, s, id);
            && InventoryIndex.SameNames(s.sys.world.table, s'.sys.world.table)
            && InventoryIndex.IndexOf(s'.sys.world) == InventoryIndex.IndexOf(s.sys.world)
  {
    var w, k := s.sys.world, s.jobs[id];
    PutGet(w, id, CellOf(w, id));
    match k
    case Loaded(_, ok, state) =>
      var v := Decide(threshold, state, ok);
      InventoryIndex.SetStateIsInvisible(w, id, v.status, v.retryCount);
    case Saved(_, v) => InventoryIndex.SetRowIsInvisible(w, id, v.status, v.retryCount);
    case _ =>
  }

  /** A job leaves every other server alone, and its own too while only reading. */
  lemma WorkFrame(threshold: int, s: State, id: Id, x: Id)
    requires id in s.jobs && s.jobs[id].Job() == Some(id) && (x != id || s.jobs[id].Pinged?)
    ensures CellOf(WorkOn(threshold, s, id).sys.world, x) == CellOf(s.sys.world, x)
  {
    var c := WorkerPool.JobStep(Env(threshold), s.jobs[id], CellOf(s.sys.world, id)).0;
    PutGet(s.sys.world, id, c);
  }

  lemma WorkSeparate(threshold: int, s: State, id: Id)
    requires Kept(threshold, s) && Enabled(s, Work(id))
    ensures Separate(WorkOn(threshold, s, id))
  {
    var s' := WorkOn(threshold, s, id);
    WorkIndex(threshold, s, id);
    WorkerPool.JobStepResumes(Env(threshold), s.jobs[id], CellOf(s.sys.world, id));
    forall x | Evaluating(s', x) ensures x in s'.traces && !InHand(s'.sys.admin, x) {
      if x != id {
        assert Evaluating(s, x);
      } else if s.jobs[id].Pinged? {
        AtRest(threshold, s, id);
      }
    }
    if s.sys.admin.Editing? {
      var x := s.sys.admin.id;
      assert InHand(s.sys.admin, x);
      WorkFrame(threshold, s, id, x);
      assert CellOf(s'.sys.world, x).row == CellOf(s.sys.world, x).row;
    }
  }

  lemma WorkRight(threshold: int, s: State, id: Id)
    requires Kept(threshold, s) && Enabled(s, Work(id)) && Separate(WorkOn(threshold, s, id))
    ensures Right(threshold, WorkOn(threshold, s, id), id)
  {
    var s', k, c := WorkOn(threshold, s, id), s.jobs[id], CellOf(s.sys.world, id);
    var (c', k') := WorkerPool.JobStep(Env(threshold), k, c);
    WorkerPool.JobStepResumes(Env(threshold), k, c);
    PutGet(s.sys.world, id, c');
    assert Right(threshold, s, id);
    if k.Pinged? {
      AtRest(threshold, s, id);
      if k'.Loaded? { LogEvent(threshold, s.traces, id, Ping(k'.ok)); } else { Untouched(c', id, Todo(s.sys.admin)); }
    } else {
      assert Evaluating(s, id);
      Untouched(c', id, Todo(s.sys.admin));
    }
  }

  lemma WorkKept(threshold: int, s: State, id: Id)
    requires Kept(threshold, s) && Enabled(s, Work(id))
    ensures Kept(threshold, WorkOn(threshold, s, id))
  {
    var s' := WorkOn(threshold, s, id);
    WorkSeparate(threshold, s, id);
    WorkRight(threshold, s, id);
    forall x | x != id ensures Right(threshold, s', x) {
      assert Right(threshold, s, x);
      WorkFrame(threshold, s, id, x);
    }
  }

  /** A worker of a monitoring cycle does to the stores, from its ping on, what a job here
      does. */
  lemma PoolStepIsWork(threshold: int, ping: Id -> bool, p: WorkerPool.Pool, w: nat, s: State)
    requires WorkerPool.Enabled(p, WorkerPool.Work(w)) && p.workers[w].Job().Some?
    requires !p.workers[w].Taken? && !p.workers[w].Addressed?
    requires s.sys.world == p.world && p.workers[w].id in s.jobs && s.jobs[p.workers[w].id] == p.workers[w]
    ensures WorkerPool.Next(SystemRuns.CycleEnv(threshold, ping), p, WorkerPool.Work(w)).world
            == WorkOn(threshold, s, p.workers[w].id).sys.world
  {
  }

  // ---- Steps of the administrator ---------------------------------------------------

  lemma SendKept(threshold: int, s: State)
    requires Kept(threshold, s) && s.sys.admin.Mirroring?
    ensures Kept(threshold, Next(threshold, s, Admin(InventoryIndex.SendNext)))
  {
    var s', todo := Next(threshold, s, Admin(InventoryIndex.SendNext)), s.sys.admin.todo;
    forall id ensures InHand(s'.sys.admin, id) ==> InHand(s.sys.admin, id) { }
    forall id ensures Right(threshold, s', id) {
      assert Right(threshold, s, id);
      if todo != [] {
        assert todo[0] in todo && (InventoryIndex.Touched(todo[0]) == id ==> Touches(todo, id));
        assert CellOf(s'.sys.world, id) == SendCell(CellOf(s.sys.world, id), id, todo[0]);
      }
    }
  }

  /** What an operation does to a server it has in hand, when it was at rest before. */
  lemma UpsertSettles(c: Cell, id: Id, row: Row)
    ensures SendCells(c, id, InventoryIndex.UpsertCommands(id, row)) == c.(hash := Some(Hash(Some(row.ipv4), row.status, row.failures)))
  {
    var cs := InventoryIndex.UpsertCommands(id, row);
    assert cs[1..] == [InventoryIndex.SAdd(id)] && cs[1..][1..] == [];
    assert SendCells(SendCell(c, id, cs[0]), id, cs[1..]) == SendCells(SendCell(SendCell(c, id, cs[0]), id, cs[1]), id, []);
  }

  lemma UpsertTouches(id: Id, row: Row, x: Id)
    ensures Touches(InventoryIndex.UpsertCommands(id, row), x) <==> x == id
  {
    var cs := InventoryIndex.UpsertCommands(id, row);
    assert cs[0] in cs && InventoryIndex.Touched(cs[0]) == id;
  }

  /** An operation that writes rows touches nothing else, and then has in hand exactly the
      servers for which commands are to be sent. */
  ghost predicate OnlyInHand(s: State, s': State) {
    && s'.jobs == s.jobs && s'.sys.world.info == s.sys.world.info && s'.sys.admin.Mirroring?
    && forall id :: !InHand(s'.sys.admin, id) ==>
         Lookup(s'.sys.world.table, id) == Lookup(s.sys.world.table, id) && Lookup(s'.traces, id) == Lookup(s.traces, id)
  }

  lemma WriteKept(threshold: int, s: State, s': State)
    requires Kept(threshold, s) && Todo(s.sys.admin) == [] && OnlyInHand(s, s') && s'.traces.Keys == s'.sys.world.table.Keys
    requires forall id :: InHand(s'.sys.admin, id) ==>
               !Evaluating(s, id) && SendCells(CellOf(s'.sys.world, id), id, Todo(s'.sys.admin)) == Recorded(threshold, s'.traces, id)
    ensures Kept(threshold, s')
  {
    forall id ensures Evaluating(s', id) ==> id in s'.traces && !InHand(s'.sys.admin, id) {
      assert Lookup(s'.traces, id) == Lookup(s.traces, id) || InHand(s'.sys.admin, id);
    }
    assert Separate(s');
    forall id ensures Right(threshold, s', id) {
      assert Right(threshold, s, id);
      if !InHand(s'.sys.admin, id) {
        assert Lookup(s'.traces, id) == Lookup(s.traces, id);
        assert CellOf(s'.sys.world, id) == CellOf(s.sys.world, id);
        Untouched(CellOf(s.sys.world, id), id, Todo(s'.sys.admin));
      }
    }
  }

  /** A row is inserted or replaced, and the commands of an upsert are to be sent. */
  function Upserting(s: State, id: Id, row: Row, tr: SystemRuns.Trace): State {
    State(InventoryIndex.System(s.sys.world.(table := s.sys.world.table[id := row]), InventoryIndex.Mirroring(InventoryIndex.UpsertCommands(id, row))),
          s.jobs, s.traces[id := tr])
  }

  lemma UpsertingKept(threshold: int, s: State, id: Id, row: Row, tr: SystemRuns.Trace)
    requires Kept(threshold, s) && Todo(s.sys.admin) == [] && !Evaluating(s, id)
    requires SystemRuns.Replay(threshold, tr) == Cell(Some(Hash(Some(row.ipv4), row.status, row.failures)), Some(row))
    ensures Kept(threshold, Upserting(s, id, row, tr))
  {
    var s' := Upserting(s, id, row, tr);
    forall x ensures InHand(s'.sys.admin, x) <==> x == id { UpsertTouches(id, row, x); }
    UpsertSettles(CellOf(s'.sys.world, id), id, row);
    WriteKept(threshold, s, s');
  }

  lemma BeginUpdateKept(threshold: int, s: State, a: InventoryIndex.Step)
    requires Kept(threshold, s) && a.BeginUpdate? && Enabled(s, Admin(a))
    ensures Kept(threshold, Next(threshold, s, Admin(a)))
  {
    var s' := Next(threshold, s, Admin(a));
    if a.id in s.sys.world.table {
      assert forall id :: InHand(s'.sys.admin, id) <==> id == a.id;
      forall id ensures Right(threshold, s', id) { assert Right(threshold, s, id); }
    }
  }

  lemma WriteUpdateKept(threshold: int, s: State)
    requires Kept(threshold, s) && UniqueTrimmed(s.sys.world.table) && s.sys.admin.Editing?
    ensures Kept(threshold, Next(threshold, s, Admin(InventoryIndex.WriteUpdate)))
  {
    var s' := Next(threshold, s, Admin(InventoryIndex.WriteUpdate));
    var Editing(id, row, name, ipv4) := s.sys.admin;
    var r := UpdateRow(s.sys.world.table, id, row, name, ipv4, NO_ADMIN_FAULTS);
    UpdateRowIsClean(s.sys.world.table, id, row, name, ipv4, NO_ADMIN_FAULTS);
    assert InHand(s.sys.admin, id) && Right(threshold, s, id);
    if r.Ok? {
      var e, row' := AdminUpdate(Trim(name), Trim(ipv4)), row.(name := Trim(name), ipv4 := Trim(ipv4));
      LogEvent(threshold, s.traces, id, e);
      var tr := s.traces[id].(events := s.traces[id].events + [e]);
      assert s' == Upserting(s, id, row', tr);
      UpsertingKept(threshold, s, id, row', tr);
    } else {
      forall x ensures Right(threshold, s', x) { assert Right(threshold, s, x); }
    }
  }

  lemma BeginCreateKept(threshold: int, s: State, a: InventoryIndex.Step)
    requires Kept(threshold, s) && a.BeginCreate? && Enabled(s, Admin(a))
    ensures Kept(threshold, Next(threshold, s, Admin(a)))
  {
    var s' := Next(threshold, s, Admin(a));
    if CreateRow(s.sys.world.table, a.id, a.name, a.ipv4, NO_ADMIN_FAULTS).Ok? {
      var row, tr := Row(Trim(a.name), Trim(a.ipv4), Online, 0), SystemRuns.Trace(Trim(a.name), Trim(a.ipv4), []);
      assert s' == Upserting(s, a.id, row, tr);
      UpsertingKept(threshold, s, a.id, row, tr);
    }
  }

  lemma DeletionSettles(c: Cell, id: Id, x: Id)
    ensures var cs := [InventoryIndex.Del(id), InventoryIndex.SRem(id)];
            (Touches(cs, x) <==> x == id) && SendCells(c, id, cs) == c.(hash := None)
  {
    var cs := [InventoryIndex.Del(id), InventoryIndex.SRem(id)];
    assert cs[0] in cs && InventoryIndex.Touched(cs[0]) == id;
    assert cs[1..] == [cs[1]] && cs[1..][1..] == [];
    assert SendCells(SendCell(c, id, cs[0]), id, cs[1..]) == SendCells(SendCell(SendCell(c, id, cs[0]), id, cs[1]), id, []);
  }

  lemma BeginDeleteKept(threshold: int, s: State, a: InventoryIndex.Step)
    requires Kept(threshold, s) && a.BeginDelete? && Enabled(s, Admin(a))
    ensures Kept(threshold, Next(threshold, s, Admin(a)))
  {
    var s', id := Next(threshold, s, Admin(a)), a.id;
    if id in s.sys.world.table {
      forall x ensures InHand(s'.sys.admin, x) <==> x == id { DeletionSettles(CellOf(s'.sys.world, id), id, x); }
      DeletionSettles(CellOf(s'.sys.world, id), id, id);
      WriteKept(threshold, s, s');
    } else {
      assert s' == s;
    }
  }

  lemma {:induction false} SendCellsConcat(c: Cell, id: Id, a: seq<InventoryIndex.Command>, b: seq<InventoryIndex.Command>)
    ensures SendCells(c, id, a + b) == SendCells(SendCells(c, id, a), id, b)
    decreases |a|
  {
    if a == [] {
      assert a + b == b;
    } else {
      assert (a + b)[1..] == a[1..] + b;
      SendCellsConcat(SendCell(c, id, a[0]), id, a[1..], b);
    }
  }

  /** An import batch takes exactly its new servers in hand, and its pipeline gives each
      of them the contents of a new history. */
  ghost predicate Imports(threshold: int, t: Table, tr: map<Id, SystemRuns.Trace>, h: Option<Hash>, a: Progress, id: Id) {
    var tr', cs := SystemRuns.LogCreated(tr, a.created), InventoryIndex.Pipeline(a.created);
    && tr'.Keys == a.table.Keys
    && (Touches(cs, id) <==> id in a.table && id !in t)
    && (id in t ==> Lookup(a.table, id) == Lookup(t, id) && Lookup(tr', id) == Lookup(tr, id))
    && (Touches(cs, id) ==> SendCells(Cell(h, Lookup(a.table, id)), id, cs) == Recorded(threshold, tr', id))
  }

  lemma TouchesConcat(a: seq<InventoryIndex.Command>, b: seq<InventoryIndex.Command>, id: Id)
    ensures Touches(a + b, id) <==> Touches(a, id) || Touches(b, id)
  {
    assert forall x :: x in a + b <==> x in a || x in b;
  }

  lemma AcceptImports(threshold: int, t: Table, tr: map<Id, SystemRuns.Trace>, h: Option<Hash>, newId: nat -> Id, p: Progress, c: Candidate, id: Id)
    requires Imports(threshold, t, tr, h, p, id) && newId(p.next) !in p.table && (id in t ==> id in p.table)
    ensures Imports(threshold, t, tr, h, Accept(newId, p, c), id)
  {
    if !Taken(p.table, c) {
      var a, new' := Accept(newId, p, c), newId(p.next);
      var cs, more := InventoryIndex.Pipeline(p.created), InventoryIndex.UpsertCommands(new', NewRow(c));
      assert (p.created + [(new', c)])[..|p.created|] == p.created;
      assert InventoryIndex.Pipeline(a.created) == cs + more;
      UpsertTouches(new', NewRow(c), id);
      assert Touches(cs + more, id) <==> Touches(cs, id) || Touches(more, id) by { TouchesConcat(cs, more, id); }
      var x := Cell(h, Lookup(a.table, id));
      SendCellsConcat(x, id, cs, more);
      if id == new' {
        Untouched(x, id, cs);
        UpsertSettles(x, id, NewRow(c));
      } else {
        Untouched(SendCells(x, id, cs), id, more);
      }
    }
  }

  lemma {:induction false} BatchImports(threshold: int, t: Table, tr: map<Id, SystemRuns.Trace>, h: Option<Hash>, newId: nat -> Id, used: nat, batch: seq<Candidate>, id: Id)
    requires tr.Keys == t.Keys && UniqueTrimmed(t) && Fresh(newId, t, used)
    requires forall c :: c in batch ==> Trimmed(c.name) && Trimmed(c.ipv4)
    ensures Imports(threshold, t, tr, h, AcceptAll(newId, Progress(t, used, [], []), batch), id)
  {
    if batch != [] {
      var rest := batch[..|batch| - 1];
      BatchImports(threshold, t, tr, h, newId, used, rest, id);
      InventoryIndex.ImportCatchesUp(InventoryIndex.Wanted(t), t, newId, used, rest);
      AcceptImports(threshold, t, tr, h, newId, AcceptAll(newId, Progress(t, used, [], []), rest), batch[|batch| - 1], id);
    }
  }

  lemma BeginImportKept(threshold: int, s: State, a: InventoryIndex.Step)
    requires Kept(threshold, s) && UniqueTrimmed(s.sys.world.table) && a.BeginImport? && Enabled(s, Admin(a))
    ensures Kept(threshold, Next(threshold, s, Admin(a)))
  {
    var s', w := Next(threshold, s, Admin(a)), s.sys.world;
    var p := AcceptAll(a.newId, Progress(w.table, a.used, [], []), a.batch);
    forall id
      ensures Imports(threshold, w.table, s.traces, Lookup(w.info, id), p, id)
      ensures InHand(s'.sys.admin, id) <==> id in p.table && id !in w.table
    {
      BatchImports(threshold, w.table, s.traces, Lookup(w.info, id), a.newId, a.used, a.batch, id);
    }
    assert s'.traces.Keys == p.table.Keys by {
      assert Imports(threshold, w.table, s.traces, Lookup(w.info, ""), p, "");
    }
    forall id | !InHand(s'.sys.admin, id)
      ensures Lookup(p.table, id) == Lookup(w.table, id) && Lookup(s'.traces, id) == Lookup(s.traces, id)
    {
      assert Imports(threshold, w.table, s.traces, Lookup(w.info, id), p, id);
    }
    forall id | InHand(s'.sys.admin, id)
      ensures !Evaluating(s, id) && SendCells(CellOf(s'.sys.world, id), id, Todo(s'.sys.admin)) == Recorded(threshold, s'.traces, id)
    {
      assert Imports(threshold, w.table, s.traces, Lookup(w.info, id), p, id);
    }
    WriteKept(threshold, s, s');
  }

  // ---- Every run --------------------------------------------------------------------

  lemma AnswerKept(threshold: int, s: State, id: Id, ok: bool)
    requires Kept(threshold, s) && id !in s.jobs
    ensures Kept(threshold, Next(threshold, s, Answer(id, ok)))
  {
    var s' := Next(threshold, s, Answer(id, ok));
    assert forall x :: Evaluating(s', x) <==> Evaluating(s, x);
    forall x ensures Right(threshold, s', x) { assert Right(threshold, s, x); }
  }

  lemma NextKept(threshold: int, s: State, e: Step)
    requires Kept(threshold, s) && UniqueTrimmed(s.sys.world.table) && Enabled(s, e)
    ensures Kept(threshold, Next(threshold, s, e))
  {
    match e
    case Answer(id, ok) => AnswerKept(threshold, s, id, ok);
    case Work(id) => WorkKept(threshold, s, id);
    case Admin(a) =>
      match a
      case BeginCreate(_, _, _) => BeginCreateKept(threshold, s, a);
      case BeginUpdate(_, _, _) => BeginUpdateKept(threshold, s, a);
      case WriteUpdate => WriteUpdateKept(threshold, s);
      case BeginDelete(_) => BeginDeleteKept(threshold, s, a);
      case BeginImport(_, _, _) => BeginImportKept(threshold, s, a);
      case SendNext => SendKept(threshold, s);
  }

  lemma NextIndex(threshold: int, s: State, e: Step)
    requires InventoryIndex.Inv(s.sys) && Separate(s) && Enabled(s, e)
    ensures InventoryIndex.Inv(Next(threshold, s, e).sys)
  {
    match e
    case Admin(a) => InventoryIndex.NextInv(s.sys, a);
    case Answer(_, _) =>
    case Work(id) =>
      WorkIndex(threshold, s, id);
      InventoryIndex.SameNamesSameIndex(s.sys.world.table, WorkOn(threshold, s, id).sys.world.table);
  }

  const EMPTY := State(InventoryIndex.System(World(map[], {}, map[]), InventoryIndex.Idle), map[], map[])

  lemma {:induction false} ExecInv(threshold: int, steps: seq<Step>)
    requires Exec(threshold, EMPTY, steps).Some?
    ensures Inv(threshold, Exec(threshold, EMPTY, steps).value)
  {
    if steps == [] {
      assert InventoryIndex.IndexOf(EMPTY.sys.world) == InventoryIndex.Wanted(map[]);
    } else {
      ExecInv(threshold, steps[..|steps| - 1]);
      var s, e := Exec(threshold, EMPTY, steps[..|steps| - 1]).value, steps[|steps| - 1];
      NextIndex(threshold, s, e);
      NextKept(threshold, s, e);
    }
  }

  /** In every run in which no operation and no evaluation overlap on one server, whatever
      overlaps on different ones, and at every moment: a server that neither has in hand
      holds exactly the contents of its own history, so the stores agree on it, an outage
      that has lasted the threshold is recorded, and a recorded outage is one. */
  lemma ServersAtRest(threshold: int, steps: seq<Step>, id: Id)
    requires Exec(threshold, EMPTY, steps).Some?
    requires var s := Exec(threshold, EMPTY, steps).value;
             id in s.sys.world.table && !Evaluating(s, id) && !InHand(s.sys.admin, id)
    ensures var s := Exec(threshold, EMPTY, steps).value;
            && id in s.traces
            && CellOf(s.sys.world, id) == SystemRuns.Replay(threshold, s.traces[id])
            && CrossStore(threshold, CellOf(s.sys.world, id))
            && var k := Trailing(s.traces[id].events);
               && (k >= Effective(threshold) ==> s.sys.world.table[id].status.Offline?)
               && (s.sys.world.table[id].status.Offline? ==> k >= 1)
  {
    ExecInv(threshold, steps);
    var s := Exec(threshold, EMPTY, steps).value;
    AtRest(threshold, s, id);
    var t := s.traces[id];
    HistoryInvariant(threshold, t.name, t.ipv4, t.events);
  }
}
