/** The whole system: administrator operations as whole steps and monitoring cycles under
    any schedule. Seen from one server, every run of it is a plain history of pings and
    updates, so what holds of every history holds of every server in every run. */
module SystemRuns {
  import opened Stores
  import opened Text
  import opened Monitoring
  import opened MonitoringHistory
  import opened Inventory
  import opened BulkImport
  import WorkerPool
  import ServerManagement

  /** How a server came to be and what happened to it since. */
  datatype Trace = Trace(name: string, ipv4: string, events: seq<Event>)

  datatype System = System(world: World, traces: map<Id, Trace>)

  datatype Op =
    | CreateOp(id: Id, name: string, ipv4: string)
    | UpdateOp(id: Id, name: string, ipv4: string)
    | DeleteOp(id: Id)
    | ImportOp(newId: nat -> Id, rules: Rules, at: Columns, rows: seq<seq<string>>)
    | CycleOp(ping: Id -> bool, ids: seq<Id>, concurrency: nat, schedule: seq<WorkerPool.Thread>)

  function CycleEnv(threshold: int, ping: Id -> bool): WorkerPool.Env {
    WorkerPool.Env(threshold, ping, (_: Id) => Monitoring.NO_FAULTS)
  }

  function Cycle(threshold: int, w: World, op: Op): Option<WorkerPool.Pool>
    requires op.CycleOp?
  {
    WorkerPool.Exec(CycleEnv(threshold, op.ping), WorkerPool.Init(w, op.ids, op.concurrency), op.schedule)
  }

  /** Generated ids are new; a cycle works on a listing of `server:all_ids` and runs,
      with at least one worker, until it returns. */
  ghost predicate Enabled(threshold: int, s: System, op: Op) {
    match op
    case CreateOp(id, _, _) => id !in s.world.table
    case UpdateOp(_, _, _) => true
    case DeleteOp(_) => true
    case ImportOp(newId, _, _, _) => Fresh(newId, s.world.table, 0)
    case CycleOp(_, ids, n, _) =>
      && Distinct(ids) && (forall id :: id in ids <==> id in s.world.ids)
      && n >= 1
      && var p := Cycle(threshold, s.world, op); p.Some? && p.value.returned
  }

  function Log(t: map<Id, Trace>, id: Id, e: Event): map<Id, Trace> {
    if id in t then t[id := t[id].(events := t[id].events + [e])] else t
  }

  function LogCreated(t: map<Id, Trace>, items: seq<(Id, Candidate)>): map<Id, Trace> {
    if items == [] then t
    else
      var (id, c) := items[|items| - 1];
      LogCreated(t, items[..|items| - 1])[id := Trace(c.name, c.ipv4, [])]
  }

  /** A server is pinged if the cycle finds an address for it. */
  predicate Reachable(w: World, id: Id) {
    id in w.info && w.info[id].ipv4.Some? && w.info[id].ipv4.value != ""
  }

  function LogCycle(t: map<Id, Trace>, w: World, ping: Id -> bool): map<Id, Trace> {
    map id | id in t :: if Reachable(w, id) then t[id].(events := t[id].events + [Ping(ping(id))]) else t[id]
  }

  /** The system after the sequential import of some rows. */
  function AfterImport(s: System, newId: nat -> Id, ks: seq<Kind>): System {
    var p := Sequential(newId, s.world.table, ks);
    System(ServerManagement.UpsertAll(s.world.(table := p.table), p.created), LogCreated(s.traces, p.created))
  }

  ghost function Next(threshold: int, s: System, op: Op): System
    requires Enabled(threshold, s, op)
  {
    var w, t := s.world, s.traces;
    match op
    case CreateOp(id, name, ipv4) =>
      var (w', r) := Create(w, id, name, ipv4, NO_ADMIN_FAULTS);
      System(w', if r.Ok? then t[id := Trace(Trim(name), Trim(ipv4), [])] else t)
    case UpdateOp(id, name, ipv4) =>
      var (w', r) := Update(w, id, name, ipv4, NO_ADMIN_FAULTS);
      System(w', if r.Ok? then Log(t, id, AdminUpdate(Trim(name), Trim(ipv4))) else t)
    case DeleteOp(id) => System(Delete(w, id, NO_ADMIN_FAULTS).0, t - {id})
    case ImportOp(newId, rules, at, rows) => AfterImport(s, newId, Kinds(rules, at, rows))
    case CycleOp(ping, _, _, _) => System(Cycle(threshold, w, op).value.world, LogCycle(t, w, ping))
  }

  ghost function Exec(threshold: int, s: System, ops: seq<Op>): Option<System> {
    if ops == [] then Some(s)
    else match Exec(threshold, s, ops[..|ops| - 1])
      case None => None
      case Some(s') => if Enabled(threshold, s', ops[|ops| - 1]) then Some(Next(threshold, s', ops[|ops| - 1])) else None
  }

  // ---- Every server is its own history --------------------------------------------

  function Replay(threshold: int, t: Trace): Cell {
    Run(threshold, Created(t.name, t.ipv4), t.events)
  }

  ghost predicate Listed(s: System) {
    s.world.ids == s.world.table.Keys && s.world.info.Keys == s.world.table.Keys && s.traces.Keys == s.world.table.Keys
  }

  ghost predicate Replayed(threshold: int, s: System)
    requires Listed(s)
  {
    forall id :: id in s.world.table ==> CellOf(s.world, id) == Replay(threshold, s.traces[id])
  }

  ghost predicate Faithful(threshold: int, s: System) {
    UniqueTrimmed(s.world.table) && Listed(s) && Replayed(threshold, s)
  }

  lemma RunAppend(threshold: int, c: Cell, es: seq<Event>, e: Event)
    ensures Run(threshold, c, es + [e]) == MonitoringHistory.Apply(threshold, Run(threshold, c, es), e)
  {
    assert (es + [e])[..|es|] == es;
  }

  /** The system with the contents and the trace of one listed or new server replaced. */
  function Install(s: System, id: Id, hash: Hash, row: Row, t: Trace): System {
    System(World(s.world.table[id := row], s.world.ids + {id}, s.world.info[id := hash]), s.traces[id := t])
  }

  lemma InstallFaithful(threshold: int, s: System, id: Id, hash: Hash, row: Row, t: Trace)
    requires Listed(s) && Replayed(threshold, s)
    requires Replay(threshold, t) == Cell(Some(hash), Some(row))
    ensures var s' := Install(s, id, hash, row, t); Listed(s') && Replayed(threshold, s')
  {
    var s' := Install(s, id, hash, row, t);
    assert Listed(s');
    forall x | x in s'.world.table ensures CellOf(s'.world, x) == Replay(threshold, s'.traces[x]) {
      if x != id { assert CellOf(s'.world, x) == CellOf(s.world, x); }
    }
  }

  /** A server inserted under a new id starts an empty history. */
  lemma AddServer(threshold: int, s: System, id: Id, c: Candidate)
    requires Faithful(threshold, s) && id !in s.world.table && !Taken(s.world.table, c)
    requires Trimmed(c.name) && Trimmed(c.ipv4)
    ensures var w := s.world.(table := s.world.table[id := NewRow(c)]);
            Faithful(threshold, System(Upsert(w, id, NewRow(c), NO_ADMIN_FAULTS), s.traces[id := Trace(c.name, c.ipv4, [])]))
  {
    InsertKeepsUnique(s.world.table, id, NewRow(c));
    InstallFaithful(threshold, s, id, Hash(Some(c.ipv4), Online, 0), NewRow(c), Trace(c.name, c.ipv4, []));
  }

  lemma CreateFaithful(threshold: int, s: System, op: Op)
    requires Faithful(threshold, s) && op.CreateOp? && Enabled(threshold, s, op)
    ensures Faithful(threshold, Next(threshold, s, op))
  {
    CreateIsClean(s.world, op.id, op.name, op.ipv4, NO_ADMIN_FAULTS);
    var c := Candidate(Trim(op.name), Trim(op.ipv4));
    TrimTrims(op.name);
    TrimTrims(op.ipv4);
    if Create(s.world, op.id, op.name, op.ipv4, NO_ADMIN_FAULTS).1.Ok? {
      AddServer(threshold, s, op.id, c);
    }
  }

  lemma UpdateFaithful(threshold: int, s: System, op: Op)
    requires Faithful(threshold, s) && op.UpdateOp?
    ensures Faithful(threshold, Next(threshold, s, op))
  {
    var id, name, ipv4 := op.id, Trim(op.name), Trim(op.ipv4);
    var (w', r) := Update(s.world, id, op.name, op.ipv4, NO_ADMIN_FAULTS);
    UpdateIsClean(s.world, id, op.name, op.ipv4, NO_ADMIN_FAULTS);
    if r.Ok? {
      var t, row := s.traces[id], r.value;
      RunAppend(threshold, Created(t.name, t.ipv4), t.events, AdminUpdate(name, ipv4));
      assert CellOf(s.world, id) == Replay(threshold, t);
      InstallFaithful(threshold, s, id, Hash(Some(ipv4), row.status, row.failures), row,
                      t.(events := t.events + [AdminUpdate(name, ipv4)]));
    }
  }

  lemma DeleteFaithful(threshold: int, s: System, op: Op)
    requires Faithful(threshold, s) && op.DeleteOp?
    ensures Faithful(threshold, Next(threshold, s, op))
  {
    var w' := Next(threshold, s, op).world;
    DeleteIsClean(s.world, op.id, NO_ADMIN_FAULTS);
    forall x | x in w'.table ensures CellOf(w', x) == CellOf(s.world, x) {
    }
  }

  lemma AfterAcceptedRow(s: System, newId: nat -> Id, ks: seq<Kind>, c: Candidate)
    requires ks != [] && ks[|ks| - 1] == Proper(c)
    requires !Taken(Sequential(newId, s.world.table, ks[..|ks| - 1]).table, c)
    ensures var p := Sequential(newId, s.world.table, ks[..|ks| - 1]);
            var before, id := AfterImport(s, newId, ks[..|ks| - 1]), newId(p.next);
            && before.world.table == p.table
            && AfterImport(s, newId, ks) ==
               System(Upsert(before.world.(table := p.table[id := NewRow(c)]), id, NewRow(c), NO_ADMIN_FAULTS),
                      before.traces[id := Trace(c.name, c.ipv4, [])])
  {
    var p := Sequential(newId, s.world.table, ks[..|ks| - 1]);
    var id := newId(p.next);
    ServerManagement.UpsertAllTable(s.world.(table := p.table), p.created);
    ServerManagement.UpsertAllRetable(s.world.(table := p.table), p.created, p.table[id := NewRow(c)]);
    assert (p.created + [(id, c)])[..|p.created|] == p.created;
  }

  lemma AfterOtherRow(s: System, newId: nat -> Id, ks: seq<Kind>)
    requires ks != []
    requires var k := ks[|ks| - 1];
             k.Proper? ==> Taken(Sequential(newId, s.world.table, ks[..|ks| - 1]).table, k.c)
    ensures AfterImport(s, newId, ks) == AfterImport(s, newId, ks[..|ks| - 1])
  {
  }

  lemma AcceptedRowFaithful(threshold: int, s: System, newId: nat -> Id, ks: seq<Kind>, c: Candidate)
    requires Faithful(threshold, s) && Fresh(newId, s.world.table, 0) && TrimmedKinds(ks)
    requires ks != [] && ks[|ks| - 1] == Proper(c) && Faithful(threshold, AfterImport(s, newId, ks[..|ks| - 1]))
    requires !Taken(Sequential(newId, s.world.table, ks[..|ks| - 1]).table, c)
    ensures Faithful(threshold, AfterImport(s, newId, ks))
  {
    var rest := ks[..|ks| - 1];
    SequentialAccounting(newId, s.world.table, rest);
    AfterAcceptedRow(s, newId, ks, c);
    AddServer(threshold, AfterImport(s, newId, rest), newId(Sequential(newId, s.world.table, rest).next), c);
  }

  lemma {:induction false} ImportFaithful(threshold: int, s: System, newId: nat -> Id, ks: seq<Kind>)
    requires Faithful(threshold, s) && Fresh(newId, s.world.table, 0) && TrimmedKinds(ks)
    ensures Faithful(threshold, AfterImport(s, newId, ks))
  {
    if ks == [] {
      assert AfterImport(s, newId, ks) == s;
    } else {
      var rest, k := ks[..|ks| - 1], ks[|ks| - 1];
      ImportFaithful(threshold, s, newId, rest);
      if k.Proper? && !Taken(Sequential(newId, s.world.table, rest).table, k.c) {
        AcceptedRowFaithful(threshold, s, newId, ks, k.c);
      } else {
        AfterOtherRow(s, newId, ks);
      }
    }
  }

  /** One job in a faithful system is one ping of the server, if it has an address. */
  lemma JobIsPing(threshold: int, c: Cell, ping: bool)
    requires c.hash.Some? && c.row.Some? && c.hash.value.ipv4.Some?
    ensures var c' := ProcessCell(threshold, c, ping, Monitoring.NO_FAULTS);
            && c' == (if c.hash.value.ipv4.value == "" then c else MonitoringHistory.Apply(threshold, c, Ping(ping)))
            && c'.hash.Some? && c'.row.Some?
            && c'.row.value.name == c.row.value.name && c'.row.value.ipv4 == c.row.value.ipv4
  {
  }

  lemma CycleCell(threshold: int, s: System, op: Op, id: Id)
    requires Faithful(threshold, s) && op.CycleOp? && Enabled(threshold, s, op)
    ensures var s' := Next(threshold, s, op);
            && s'.world.ids == s.world.ids
            && (id !in s.world.table ==> CellOf(s'.world, id) == CellOf(s.world, id))
            && (id in s.world.table ==>
                  && id in s'.world.table && id in s'.world.info
                  && CellOf(s'.world, id) == Replay(threshold, s'.traces[id])
                  && s'.world.table[id].name == s.world.table[id].name && s'.world.table[id].ipv4 == s.world.table[id].ipv4)
  {
    var env := CycleEnv(threshold, op.ping);
    WorkerPool.Confluence(env, s.world, op.ids, op.concurrency, op.schedule, op.ids);
    WorkerPool.SequentialCell(env, s.world, op.ids, id);
    if id in s.world.table {
      var t, c := s.traces[id], CellOf(s.world, id);
      HistoryInvariant(threshold, t.name, t.ipv4, t.events);
      JobIsPing(threshold, c, op.ping(id));
      RunAppend(threshold, Created(t.name, t.ipv4), t.events, Ping(op.ping(id)));
    }
  }

  lemma CycleKeys(threshold: int, s: System, op: Op)
    requires Faithful(threshold, s) && op.CycleOp? && Enabled(threshold, s, op)
    ensures var s' := Next(threshold, s, op);
            s'.world.table.Keys == s.world.table.Keys && s'.world.info.Keys == s.world.info.Keys && s'.world.ids == s.world.ids
  {
    var s' := Next(threshold, s, op);
    forall id
      ensures id in s'.world.table <==> id in s.world.table
      ensures id in s'.world.info <==> id in s.world.info
    {
      CycleCell(threshold, s, op, id);
      assert id !in s.world.table ==> Lookup(s'.world.table, id) == None && Lookup(s'.world.info, id) == None;
    }
    CycleCell(threshold, s, op, "");
  }

  lemma CycleFaithful(threshold: int, s: System, op: Op)
    requires Faithful(threshold, s) && op.CycleOp? && Enabled(threshold, s, op)
    ensures Faithful(threshold, Next(threshold, s, op))
  {
    var s' := Next(threshold, s, op);
    CycleKeys(threshold, s, op);
    assert Listed(s');
    forall id | id in s.world.table
      ensures CellOf(s'.world, id) == Replay(threshold, s'.traces[id])
      ensures s'.world.table[id].name == s.world.table[id].name && s'.world.table[id].ipv4 == s.world.table[id].ipv4
    {
      CycleCell(threshold, s, op, id);
    }
  }

  lemma NextFaithful(threshold: int, s: System, op: Op)
    requires Faithful(threshold, s) && Enabled(threshold, s, op)
    ensures Faithful(threshold, Next(threshold, s, op))
  {
    match op
    case CreateOp(_, _, _) => CreateFaithful(threshold, s, op);
    case UpdateOp(_, _, _) => UpdateFaithful(threshold, s, op);
    case DeleteOp(_) => DeleteFaithful(threshold, s, op);
    case ImportOp(newId, rules, at, rows) =>
      KindsAreTrimmed(rules, at, rows);
      ImportFaithful(threshold, s, newId, Kinds(rules, at, rows));
    case CycleOp(_, _, _, _) => CycleFaithful(threshold, s, op);
  }

  const EMPTY := System(World(map[], {}, map[]), map[])

  /** Every run of the whole system, from empty stores, is faithful to the histories of
      its servers. */
  lemma {:induction false} RunsAreFaithful(threshold: int, ops: seq<Op>)
    requires Exec(threshold, EMPTY, ops).Some?
    ensures Faithful(threshold, Exec(threshold, EMPTY, ops).value)
  {
    if ops != [] {
      RunsAreFaithful(threshold, ops[..|ops| - 1]);
      NextFaithful(threshold, Exec(threshold, EMPTY, ops[..|ops| - 1]).value, ops[|ops| - 1]);
    }
  }

  /** Hence, in every run and for every server in the table: the stores agree, the index
      lists it with its address, an outage that has lasted the threshold is recorded in
      both stores, and a server recorded as down has failed since its last success. */
  lemma EveryServerInEveryRun(threshold: int, ops: seq<Op>, id: Id)
    requires Exec(threshold, EMPTY, ops).Some?
    requires id in Exec(threshold, EMPTY, ops).value.world.table
    ensures var s := Exec(threshold, EMPTY, ops).value;
            && id in s.traces && id in s.world.ids
            && CrossStore(threshold, CellOf(s.world, id))
            && var k := Trailing(s.traces[id].events);
               && (k >= Effective(threshold) ==> s.world.table[id].status.Offline?)
               && (s.world.table[id].status.Offline? ==> k >= 1)
  {
    RunsAreFaithful(threshold, ops);
    var s := Exec(threshold, EMPTY, ops).value;
    var t := s.traces[id];
    HistoryInvariant(threshold, t.name, t.ipv4, t.events);
  }
}
