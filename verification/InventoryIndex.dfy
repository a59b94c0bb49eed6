/** The Redis index under concurrency: administrator operations, one at a time but taken
    apart into their single store calls, with monitor writes landing between any two. */
module InventoryIndex {
  import opened Stores
  import opened Text
  import opened Monitoring
  import opened Inventory
  import opened BulkImport
  import WorkerPool

  datatype Command =
    | HSet(id: Id, ipv4: string, status: Status, retryCount: int)
    | SAdd(id: Id)
    | Del(id: Id)
    | SRem(id: Id)

  function Send(w: World, c: Command): World {
    match c
    case HSet(id, ipv4, status, n) => w.(info := w.info[id := Hash(Some(ipv4), status, n)])
    case SAdd(id) => w.(ids := w.ids + {id})
    case Del(id) => w.(info := w.info - {id})
    case SRem(id) => w.(ids := w.ids - {id})
  }

  /** The administrator: idle, between the read and the write of an update, or with the
      table already written and these Redis commands still to send. */
  datatype Admin =
    | Idle
    | Editing(id: Id, row: Row, name: string, ipv4: string)
    | Mirroring(todo: seq<Command>)

  datatype System = System(world: World, admin: Admin)

  datatype Step =
    | BeginCreate(id: Id, name: string, ipv4: string)
    | BeginUpdate(id: Id, name: string, ipv4: string)
    | WriteUpdate
    | BeginDelete(id: Id)
    | BeginImport(batch: seq<Candidate>, newId: nat -> Id, used: nat)
    | SendNext
    | MonitorSetState(id: Id, status: Status, retryCount: int)
    | MonitorSetRow(id: Id, status: Status, failures: int)

  predicate Enabled(s: System, e: Step) {
    match e
    case BeginCreate(id, _, _) => s.admin.Idle? && id !in s.world.table
    case BeginUpdate(_, _, _) => s.admin.Idle?
    case WriteUpdate => s.admin.Editing?
    case BeginDelete(_) => s.admin.Idle?
    case BeginImport(_, _, _) => s.admin.Idle?
    case SendNext => s.admin.Mirroring?
    case MonitorSetState(_, _, _) => true
    case MonitorSetRow(_, _, _) => true
  }

  function UpsertCommands(id: Id, row: Row): seq<Command> {
    [HSet(id, row.ipv4, row.status, row.failures), SAdd(id)]
  }

  /** The pipeline of an import batch. */
  function Pipeline(items: seq<(Id, Candidate)>): seq<Command> {
    if items == [] then []
    else Pipeline(items[..|items| - 1]) + UpsertCommands(items[|items| - 1].0, NewRow(items[|items| - 1].1))
  }

  function Next(s: System, e: Step): System
    requires Enabled(s, e)
  {
    var w := s.world;
    match e
    case BeginCreate(id, name, ipv4) => (
      match CreateRow(w.table, id, name, ipv4, NO_ADMIN_FAULTS)
      case Ok(t) => System(w.(table := t), Mirroring(UpsertCommands(id, Row(Trim(name), Trim(ipv4), Online, 0))))
      case Err(_) => s)
    case BeginUpdate(id, name, ipv4) =>
      if id in w.table then s.(admin := Editing(id, w.table[id], name, ipv4)) else s
    case WriteUpdate => (
      var Editing(id, row, name, ipv4) := s.admin;
      match UpdateRow(w.table, id, row, name, ipv4, NO_ADMIN_FAULTS)
      case Ok(t) => System(w.(table := t), Mirroring(UpsertCommands(id, row.(name := Trim(name), ipv4 := Trim(ipv4)))))
      case Err(_) => s.(admin := Idle))
    case BeginDelete(id) =>
      if id in w.table then System(w.(table := w.table - {id}), Mirroring([Del(id), SRem(id)])) else s
    case BeginImport(batch, newId, used) =>
      var a := AcceptAll(newId, Progress(w.table, used, [], []), batch);
      System(w.(table := a.table), Mirroring(Pipeline(a.created)))
    case SendNext =>
      if s.admin.todo == [] then s.(admin := Idle)
      else System(Send(w, s.admin.todo[0]), Mirroring(s.admin.todo[1..]))
    case MonitorSetState(id, status, n) => s.(world := Put(w, id, SetState(CellOf(w, id), status, n)))
    case MonitorSetRow(id, status, n) => s.(world := Put(w, id, SetRow(CellOf(w, id), status, n)))
  }

  function Exec(s: System, steps: seq<Step>): Option<System> {
    if steps == [] then Some(s)
    else match Exec(s, steps[..|steps| - 1])
      case None => None
      case Some(s') => if Enabled(s', steps[|steps| - 1]) then Some(Next(s', steps[|steps| - 1])) else None
  }

  // ---- What the index shows -------------------------------------------------------

  /** The part of Redis that says which servers there are and where. */
  datatype Index = Index(ids: set<Id>, addresses: map<Id, string>)

  function IndexOf(w: World): Index {
    Index(w.ids, map id | id in w.info && w.info[id].ipv4.Some? :: w.info[id].ipv4.value)
  }

  function Wanted(t: Table): Index {
    Index(t.Keys, map id | id in t :: t[id].ipv4)
  }

  function Apply(x: Index, c: Command): Index {
    match c
    case HSet(id, ipv4, _, _) => x.(addresses := x.addresses[id := ipv4])
    case SAdd(id) => x.(ids := x.ids + {id})
    case Del(id) => x.(addresses := x.addresses - {id})
    case SRem(id) => x.(ids := x.ids - {id})
  }

  function ApplyAll(x: Index, cs: seq<Command>): Index
    decreases |cs|
  {
    if cs == [] then x else ApplyAll(Apply(x, cs[0]), cs[1..])
  }

  lemma SendApplies(w: World, c: Command)
    ensures IndexOf(Send(w, c)) == Apply(IndexOf(w), c) && Send(w, c).table == w.table
  {
  }

  /** A monitor write changes neither the index nor any name or address, and in
      particular cannot bring an address back for a deleted server. */
  lemma SetStateIsInvisible(w: World, id: Id, status: Status, n: int)
    ensures var w' := Put(w, id, SetState(CellOf(w, id), status, n));
            IndexOf(w') == IndexOf(w) && w'.table == w.table
  {
    PutGet(w, id, CellOf(w, id));
    var w' := Put(w, id, SetState(CellOf(w, id), status, n));
    assert IndexOf(w').addresses == IndexOf(w).addresses;
  }

  ghost predicate SameNames(t: Table, t': Table) {
    t'.Keys == t.Keys && forall x :: x in t ==> t'[x].name == t[x].name && t'[x].ipv4 == t[x].ipv4
  }

  lemma SetRowIsInvisible(w: World, id: Id, status: Status, n: int)
    ensures var w' := Put(w, id, SetRow(CellOf(w, id), status, n));
            IndexOf(w') == IndexOf(w) && SameNames(w.table, w'.table)
  {
    PutGet(w, id, CellOf(w, id));
    var w' := Put(w, id, SetRow(CellOf(w, id), status, n));
    assert w'.info == w.info;
  }

  lemma SameNamesSameIndex(t: Table, t': Table)
    requires SameNames(t, t')
    ensures Wanted(t') == Wanted(t) && (UniqueTrimmed(t) ==> UniqueTrimmed(t'))
  {
    assert Wanted(t').addresses == Wanted(t).addresses;
  }

  // ---- The invariant --------------------------------------------------------------

  /** Redis will show exactly the table once the commands still to send have been sent. */
  ghost predicate Inv(s: System) {
    && UniqueTrimmed(s.world.table)
    && match s.admin {
         case Idle => IndexOf(s.world) == Wanted(s.world.table)
         case Editing(id, row, _, _) =>
           && IndexOf(s.world) == Wanted(s.world.table)
           && id in s.world.table && row.name == s.world.table[id].name && row.ipv4 == s.world.table[id].ipv4
         case Mirroring(todo) => ApplyAll(IndexOf(s.world), todo) == Wanted(s.world.table)
       }
  }

  lemma ApplyTwo(x: Index, a: Command, b: Command)
    ensures ApplyAll(x, [a, b]) == Apply(Apply(x, a), b)
  {
    assert [a, b][1..] == [b] && [b][1..] == [];
    assert ApplyAll(Apply(x, a), [b]) == ApplyAll(Apply(Apply(x, a), b), []);
  }

  lemma UpsertCatchesUp(x: Index, t: Table, id: Id, row: Row)
    requires x == Wanted(t)
    ensures ApplyAll(x, UpsertCommands(id, row)) == Wanted(t[id := row])
  {
    var cs := UpsertCommands(id, row);
    ApplyTwo(x, cs[0], SAdd(id));
    assert Wanted(t[id := row]).addresses == Wanted(t).addresses[id := row.ipv4];
  }

  lemma DeleteCatchesUp(x: Index, t: Table, id: Id)
    requires x == Wanted(t)
    ensures ApplyAll(x, [Del(id), SRem(id)]) == Wanted(t - {id})
  {
    ApplyTwo(x, Del(id), SRem(id));
    assert Wanted(t - {id}).addresses == Wanted(t).addresses - {id};
  }

  lemma {:induction false} ApplyAllConcat(x: Index, a: seq<Command>, b: seq<Command>)
    ensures ApplyAll(x, a + b) == ApplyAll(ApplyAll(x, a), b)
    decreases |a|
  {
    if a == [] {
      assert a + b == b;
    } else {
      assert (a + b)[1..] == a[1..] + b;
      ApplyAllConcat(Apply(x, a[0]), a[1..], b);
    }
  }

  lemma {:induction false} ImportCatchesUp(x: Index, t: Table, newId: nat -> Id, used: nat, batch: seq<Candidate>)
    requires x == Wanted(t) && UniqueTrimmed(t) && Fresh(newId, t, used)
    requires forall c :: c in batch ==> Trimmed(c.name) && Trimmed(c.ipv4)
    ensures var a := AcceptAll(newId, Progress(t, used, [], []), batch);
            && ApplyAll(x, Pipeline(a.created)) == Wanted(a.table)
            && UniqueTrimmed(a.table) && Fresh(newId, a.table, a.next)
  {
    if batch != [] {
      var rest, c := batch[..|batch| - 1], batch[|batch| - 1];
      ImportCatchesUp(x, t, newId, used, rest);
      var p := AcceptAll(newId, Progress(t, used, [], []), rest);
      AcceptGrows(newId, p, c);
      if !Taken(p.table, c) {
        var id := newId(p.next);
        assert (p.created + [(id, c)])[..|p.created|] == p.created;
        ApplyAllConcat(x, Pipeline(p.created), UpsertCommands(id, NewRow(c)));
        UpsertCatchesUp(Wanted(p.table), p.table, id, NewRow(c));
      }
    }
  }

  /** An import step is only taken on trimmed candidates and with unused ids. */
  ghost predicate Proper(s: System, e: Step) {
    e.BeginImport? ==>
      && Fresh(e.newId, s.world.table, e.used)
      && forall c :: c in e.batch ==> Trimmed(c.name) && Trimmed(c.ipv4)
  }

  lemma BeginInv(s: System, e: Step)
    requires Inv(s) && s.admin.Idle? && Enabled(s, e) && Proper(s, e)
    requires e.BeginCreate? || e.BeginDelete? || e.BeginImport?
    ensures Inv(Next(s, e))
  {
    var w := s.world;
    match e
    case BeginCreate(id, name, ipv4) =>
      CreateIsClean(w, id, name, ipv4, NO_ADMIN_FAULTS);
      UpsertCatchesUp(IndexOf(w), w.table, id, Row(Trim(name), Trim(ipv4), Online, 0));
      assert forall t :: IndexOf(w.(table := t)) == IndexOf(w);
    case BeginDelete(id) =>
      DeleteCatchesUp(IndexOf(w), w.table, id);
      assert IndexOf(w.(table := w.table - {id})) == IndexOf(w);
    case BeginImport(batch, newId, used) =>
      ImportCatchesUp(IndexOf(w), w.table, newId, used, batch);
      var a := AcceptAll(newId, Progress(w.table, used, [], []), batch);
      assert IndexOf(w.(table := a.table)) == IndexOf(w);
    case _ =>
  }

  lemma WriteUpdateInv(s: System)
    requires Inv(s) && s.admin.Editing?
    ensures Inv(Next(s, WriteUpdate))
  {
    var w := s.world;
    var Editing(id, row, name, ipv4) := s.admin;
    UpdateRowIsClean(w.table, id, row, name, ipv4, NO_ADMIN_FAULTS);
    UpsertCatchesUp(IndexOf(w), w.table, id, row.(name := Trim(name), ipv4 := Trim(ipv4)));
    assert forall t :: IndexOf(w.(table := t)) == IndexOf(w);
  }

  lemma MonitorInv(s: System, e: Step)
    requires Inv(s) && (e.MonitorSetState? || e.MonitorSetRow?)
    ensures Inv(Next(s, e))
  {
    if e.MonitorSetState? {
      SetStateIsInvisible(s.world, e.id, e.status, e.retryCount);
    } else {
      SetRowIsInvisible(s.world, e.id, e.status, e.failures);
      SameNamesSameIndex(s.world.table, Next(s, e).world.table);
    }
  }

  lemma NextInv(s: System, e: Step)
    requires Inv(s) && Enabled(s, e) && Proper(s, e)
    ensures Inv(Next(s, e))
  {
    match e
    case BeginUpdate(_, _, _) =>
    case WriteUpdate => WriteUpdateInv(s);
    case SendNext => if s.admin.todo != [] { SendApplies(s.world, s.admin.todo[0]); }
    case MonitorSetState(_, _, _) => MonitorInv(s, e);
    case MonitorSetRow(_, _, _) => MonitorInv(s, e);
    case _ => BeginInv(s, e);
  }

  ghost predicate ProperRun(s: System, steps: seq<Step>) {
    forall i :: 0 <= i < |steps| ==>
      Exec(s, steps[..i]).Some? ==> Proper(Exec(s, steps[..i]).value, steps[i])
  }

  lemma {:induction false} ExecInv(s: System, steps: seq<Step>)
    requires Inv(s) && ProperRun(s, steps) && Exec(s, steps).Some?
    ensures Inv(Exec(s, steps).value)
  {
    if steps != [] {
      var rest := steps[..|steps| - 1];
      assert forall i :: 0 <= i < |rest| ==> rest[..i] == steps[..i] && rest[i] == steps[i];
      assert ProperRun(s, rest);
      ExecInv(s, rest);
      assert steps[..|steps| - 1] == rest;
      NextInv(Exec(s, rest).value, steps[|steps| - 1]);
    }
  }

  /** Whenever no administrator operation is under way, `server:all_ids` is the set of
      table ids, every listed hash carries the table's address, and every other hash,
      such as one left by a monitor write that landed after a delete, carries none. */
  lemma QuiescentIndexIsExact(steps: seq<Step>)
    requires ProperRun(System(World(map[], {}, map[]), Idle), steps)
    requires var r := Exec(System(World(map[], {}, map[]), Idle), steps); r.Some? && r.value.admin.Idle?
    ensures var w := Exec(System(World(map[], {}, map[]), Idle), steps).value.world;
            && UniqueTrimmed(w.table)
            && w.ids == w.table.Keys
            && (forall id :: id in w.ids ==> id in w.info && w.info[id].ipv4 == Some(w.table[id].ipv4))
            && (forall id :: id in w.info && id !in w.ids ==> w.info[id].ipv4 == None)
  {
    var s0 := System(World(map[], {}, map[]), Idle);
    assert IndexOf(s0.world).addresses == map[] && Wanted(s0.world.table).addresses == map[];
    ExecInv(s0, steps);
    var w := Exec(s0, steps).value.world;
    forall id | id in w.ids ensures id in w.info && w.info[id].ipv4 == Some(w.table[id].ipv4) {
      assert id in Wanted(w.table).addresses && id in IndexOf(w).addresses;
      assert Wanted(w.table).addresses[id] == w.table[id].ipv4;
    }
    forall id | id in w.info && id !in w.ids ensures w.info[id].ipv4 == None {
      assert id !in Wanted(w.table).addresses;
      assert id !in IndexOf(w).addresses;
    }
  }

  function Touched(c: Command): Id { c.id }

  lemma {:induction false} UntouchedIsFinal(x: Index, cs: seq<Command>, id: Id)
    requires forall c :: c in cs ==> Touched(c) != id
    ensures var y := ApplyAll(x, cs);
            && (id in y.ids <==> id in x.ids)
            && (id in y.addresses <==> id in x.addresses)
            && (id in x.addresses ==> y.addresses[id] == x.addresses[id])
    decreases |cs|
  {
    if cs != [] {
      assert Touched(cs[0]) != id;
      UntouchedIsFinal(Apply(x, cs[0]), cs[1..], id);
    }
  }

  /** During an operation only the ids it still has to mirror can be out of step. */
  lemma OthersStayExact(s: System, id: Id)
    requires Inv(s) && s.admin.Mirroring? && forall c :: c in s.admin.todo ==> Touched(c) != id
    ensures (id in s.world.ids <==> id in s.world.table)
    ensures id in s.world.table ==> id in s.world.info && s.world.info[id].ipv4 == Some(s.world.table[id].ipv4)
    ensures id !in s.world.table && id in s.world.info ==> s.world.info[id].ipv4 == None
  {
    UntouchedIsFinal(IndexOf(s.world), s.admin.todo, id);
    assert id in s.world.table <==> id in Wanted(s.world.table).addresses;
  }

  /** Every step of every worker of a monitoring cycle is, to the stores, one of the two
      monitor writes above or nothing. */
  lemma PoolStepIsMonitorWrite(env: WorkerPool.Env, p: WorkerPool.Pool, t: WorkerPool.Thread, admin: Admin)
    requires WorkerPool.Enabled(p, t)
    ensures var w' := WorkerPool.Next(env, p, t).world;
            || w' == p.world
            || (exists id, status, n :: System(w', admin) == Next(System(p.world, admin), MonitorSetState(id, status, n)))
            || (exists id, status, n :: System(w', admin) == Next(System(p.world, admin), MonitorSetRow(id, status, n)))
  {
    var q := WorkerPool.Next(env, p, t);
    if t.Work? && p.workers[t.w].Job().Some? {
      var k := p.workers[t.w];
      PutGet(p.world, k.id, CellOf(p.world, k.id));
      match k
      case Loaded(id, ok, state) =>
        var v := Decide(env.threshold, state, ok);
        if !env.faults(id).set_ {
          assert System(q.world, admin) == Next(System(p.world, admin), MonitorSetState(id, v.status, v.retryCount));
        }
      case Saved(id, v) =>
        if !env.faults(id).db {
          assert System(q.world, admin) == Next(System(p.world, admin), MonitorSetRow(id, v.status, v.retryCount));
        }
      case _ =>
    }
  }

  // ---- Without interleaving -------------------------------------------------------

  function SendAll(w: World, cs: seq<Command>): World
    decreases |cs|
  {
    if cs == [] then w else SendAll(Send(w, cs[0]), cs[1..])
  }

  /** The world once the operation under way is over, if nothing comes in between. */
  function Settled(s: System): World {
    if s.admin.Mirroring? then SendAll(s.world, s.admin.todo) else s.world
  }

  lemma SendTwo(w: World, a: Command, b: Command)
    ensures SendAll(w, [a, b]) == Send(Send(w, a), b)
  {
    assert [a, b][1..] == [b] && [b][1..] == [];
    assert SendAll(Send(w, a), [b]) == SendAll(Send(Send(w, a), b), []);
  }

  /** Run without interruption, the steps of an operation are the whole operation. */
  lemma UninterruptedOperations(w: World, id: Id, name: string, ipv4: string)
    ensures id !in w.table ==>
              Settled(Next(System(w, Idle), BeginCreate(id, name, ipv4))) == Create(w, id, name, ipv4, NO_ADMIN_FAULTS).0
    ensures var s := Next(System(w, Idle), BeginUpdate(id, name, ipv4));
            Settled(if s.admin.Editing? then Next(s, WriteUpdate) else s) == Update(w, id, name, ipv4, NO_ADMIN_FAULTS).0
    ensures Settled(Next(System(w, Idle), BeginDelete(id))) == Delete(w, id, NO_ADMIN_FAULTS).0
  {
    var created := Row(Trim(name), Trim(ipv4), Online, 0);
    forall t ensures SendAll(w.(table := t), UpsertCommands(id, created)) == Upsert(w.(table := t), id, created, NO_ADMIN_FAULTS) {
      SendTwo(w.(table := t), UpsertCommands(id, created)[0], SAdd(id));
    }
    if id in w.table {
      var row := w.table[id].(name := Trim(name), ipv4 := Trim(ipv4));
      forall t ensures SendAll(w.(table := t), UpsertCommands(id, row)) == Upsert(w.(table := t), id, row, NO_ADMIN_FAULTS) {
        SendTwo(w.(table := t), UpsertCommands(id, row)[0], SAdd(id));
      }
    }
    SendTwo(w.(table := w.table - {id}), Del(id), SRem(id));
  }
}
