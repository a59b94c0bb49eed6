/** One monitoring cycle: a main thread feeds a snapshot of server ids through a channel
    to a number of workers, every store call of a worker being a separate step. A
    schedule names, step by step, the thread that moves; everything else is determined. */
module WorkerPool {
  import opened Stores
  import opened Monitoring

  /** What is fixed during one cycle: the threshold, the answer of each server to a
      ping, and which store calls fail for it. */
  datatype Env = Env(threshold: int, ping: Id -> bool, faults: Id -> Faults)

  datatype Worker =
    | Waiting
    | Taken(id: Id)
    | Addressed(id: Id)
    | Pinged(id: Id, ok: bool)
    | Loaded(id: Id, ok: bool, state: Hash)
    | Saved(id: Id, verdict: Verdict)
    | Exited
  {
    function Job(): Option<Id> {
      if Waiting? || Exited? then None else Some(id)
    }
  }

  /** `owner` and `finished` record which worker received an id and which jobs are over. */
  datatype Pool = Pool(
    world: World, ids: seq<Id>, sent: nat, queue: seq<Id>, closed: bool, returned: bool,
    workers: seq<Worker>, owner: map<Id, nat>, finished: seq<Id>)

  datatype Thread = Main | Work(w: nat)

  function Init(w: World, ids: seq<Id>, concurrency: nat): Pool {
    Pool(w, ids, 0, [], false, false, seq(concurrency, _ => Waiting), map[], [])
  }

  predicate AllExited(p: Pool) {
    forall w :: 0 <= w < |p.workers| ==> p.workers[w].Exited?
  }

  predicate Enabled(p: Pool, t: Thread) {
    match t
    case Main => !p.returned && (p.closed ==> AllExited(p))
    case Work(w) =>
      && w < |p.workers|
      && !p.workers[w].Exited?
      && (p.workers[w].Waiting? ==> p.queue != [] || p.closed)
  }

  function MainStep(p: Pool): Pool
    requires Enabled(p, Main)
  {
    if p.sent < |p.ids| then p.(sent := p.sent + 1, queue := p.queue + [p.ids[p.sent]])
    else if !p.closed then p.(closed := true)
    else p.(returned := true)
  }

  /** The worker's next store call: the cell it leaves behind and its new state, where
      `Waiting` means that the job is over. */
  function JobStep(env: Env, k: Worker, c: Cell): (Cell, Worker)
    requires k.Job().Some?
  {
    var f := env.faults(k.id);
    match k
    case Taken(id) =>
      if NoAddress(c, f) then (c, Waiting)
      else (c, Addressed(id))
    case Addressed(id) => (c, Pinged(id, env.ping(id)))
    case Pinged(id, ok) =>
      if f.get || c.hash.None? then (c, Waiting) else (c, Loaded(id, ok, c.hash.value))
    case Loaded(id, ok, state) =>
      var v := Decide(env.threshold, state, ok);
      if f.set_ then (c, Waiting)
      else (SetState(c, v.status, v.retryCount), if v.toPostgres then Saved(id, v) else Waiting)
    case Saved(id, v) => (if f.db then c else SetRow(c, v.status, v.retryCount), Waiting)
  }

  function WorkStep(env: Env, p: Pool, w: nat): Pool
    requires Enabled(p, Work(w))
  {
    var k := p.workers[w];
    if k.Waiting? then
      if p.queue != [] then
        p.(queue := p.queue[1..], workers := p.workers[w := Taken(p.queue[0])], owner := p.owner[p.queue[0] := w])
      else p.(workers := p.workers[w := Exited])
    else
      var (c, k') := JobStep(env, k, CellOf(p.world, k.id));
      p.(world := Put(p.world, k.id, c),
         workers := p.workers[w := k'],
         finished := if k'.Waiting? then p.finished + [k.id] else p.finished)
  }

  function Next(env: Env, p: Pool, t: Thread): Pool
    requires Enabled(p, t)
  {
    match t
    case Main => MainStep(p)
    case Work(w) => WorkStep(env, p, w)
  }

  /** The state a schedule leads to, if every step of it was possible. */
  function Exec(env: Env, p: Pool, schedule: seq<Thread>): Option<Pool> {
    if schedule == [] then Some(p)
    else
      var before := Exec(env, p, schedule[..|schedule| - 1]);
      var t := schedule[|schedule| - 1];
      if before.Some? && Enabled(before.value, t) then Some(Next(env, before.value, t)) else None
  }

  // ---- The sequential reference ---------------------------------------------------

  /** What one undisturbed job makes of a server. */
  function Final(env: Env, w: World, id: Id): Cell {
    ProcessCell(env.threshold, CellOf(w, id), env.ping(id), env.faults(id))
  }

  function Sequential(env: Env, w: World, ids: seq<Id>): World {
    if ids == [] then w
    else
      var before := Sequential(env, w, ids[..|ids| - 1]);
      Put(before, ids[|ids| - 1], Final(env, before, ids[|ids| - 1]))
  }

  lemma {:induction false} SequentialCell(env: Env, w: World, ids: seq<Id>, id: Id)
    requires Distinct(ids)
    ensures CellOf(Sequential(env, w, ids), id) == if id in ids then Final(env, w, id) else CellOf(w, id)
    ensures Sequential(env, w, ids).ids == w.ids
  {
    if ids != [] {
      var rest, last := ids[..|ids| - 1], ids[|ids| - 1];
      var before := Sequential(env, w, rest);
      SequentialCell(env, w, rest, id);
      SequentialCell(env, w, rest, last);
      PutGet(before, last, Final(env, before, last));
      assert ids == rest + [last];
    }
  }

  // ---- The invariant --------------------------------------------------------------

  function TakenCount(p: Pool): int { p.sent - |p.queue| }

  ghost predicate Channel(p: Pool) {
    && Distinct(p.ids)
    && p.sent <= |p.ids|
    && |p.queue| <= p.sent
    && p.queue == p.ids[TakenCount(p)..p.sent]
    && (p.closed ==> p.sent == |p.ids|)
    && (p.returned ==> p.closed && AllExited(p))
    && (forall w :: 0 <= w < |p.workers| && p.workers[w].Exited? ==> p.closed && p.queue == [])
  }

  ghost predicate Ownership(p: Pool)
    requires Channel(p)
  {
    && (forall id :: id in p.owner <==> id in p.ids[..TakenCount(p)])
    && (forall id :: id in p.owner ==> p.owner[id] < |p.workers|)
    && (forall w :: 0 <= w < |p.workers| && p.workers[w].Job().Some? ==>
          var id := p.workers[w].id; id in p.owner && p.owner[id] == w && id !in p.finished)
    && (forall id :: id in p.owner && id !in p.finished ==> p.workers[p.owner[id]].Job() == Some(id))
    && (forall id :: id in p.finished ==> id in p.owner)
    && Distinct(p.finished)
  }

  /** The cell once the worker has run the rest of its job with no one in between. */
  function Resume(env: Env, k: Worker, c: Cell): Cell
    requires k.Job().Some?
  {
    var f := env.faults(k.id);
    match k
    case Taken(id) => ProcessCell(env.threshold, c, env.ping(id), f)
    case Addressed(id) => EvaluateCell(env.threshold, c, env.ping(id), f).0
    case Pinged(id, ok) => EvaluateCell(env.threshold, c, ok, f).0
    case Loaded(id, ok, state) =>
      var v := Decide(env.threshold, state, ok);
      if f.set_ then c
      else
        var c' := SetState(c, v.status, v.retryCount);
        if !v.toPostgres || f.db then c' else SetRow(c', v.status, v.retryCount)
    case Saved(id, v) => if f.db then c else SetRow(c, v.status, v.retryCount)
  }

  /** One step of a job is a prefix of the rest of the job. */
  lemma JobStepResumes(env: Env, k: Worker, c: Cell)
    requires k.Job().Some?
    ensures var (c', k') := JobStep(env, k, c);
            && (k'.Waiting? ==> c' == Resume(env, k, c))
            && (!k'.Waiting? ==> k'.Job() == Some(k.id) && Resume(env, k', c') == Resume(env, k, c))
  {
  }

  /** What is left to do for a server leads to its sequential result. */
  ghost predicate OnTrack(env: Env, w0: World, p: Pool, id: Id)
    requires Channel(p) && Ownership(p)
  {
    var c := CellOf(p.world, id);
    if id !in p.owner then c == CellOf(w0, id)
    else if id in p.finished then c == Final(env, w0, id)
    else Resume(env, p.workers[p.owner[id]], c) == Final(env, w0, id)
  }

  ghost predicate Inv(env: Env, w0: World, p: Pool) {
    && Channel(p) && Ownership(p)
    && p.world.ids == w0.ids
    && forall id :: OnTrack(env, w0, p, id)
  }

  lemma InitInv(env: Env, w: World, ids: seq<Id>, n: nat)
    requires Distinct(ids)
    ensures Inv(env, w, Init(w, ids, n))
  {
    var p := Init(w, ids, n);
    assert Channel(p);
    assert p.ids[..TakenCount(p)] == [];
    assert Ownership(p);
    forall id ensures OnTrack(env, w, p, id) { }
  }

  lemma MainInv(env: Env, w0: World, p: Pool)
    requires Inv(env, w0, p) && Enabled(p, Main)
    ensures Inv(env, w0, MainStep(p))
  {
    var q := MainStep(p);
    assert TakenCount(q) == TakenCount(p);
    assert Channel(q) && Ownership(q);
    forall id ensures OnTrack(env, w0, q, id) { assert OnTrack(env, w0, p, id); }
  }

  lemma TakeOwnership(env: Env, p: Pool, w: nat)
    requires Channel(p) && Ownership(p) && Enabled(p, Work(w)) && p.workers[w].Waiting? && p.queue != []
    ensures var q := WorkStep(env, p, w); Channel(q) && Ownership(q)
    ensures p.queue[0] !in p.owner
  {
    var q, id := WorkStep(env, p, w), p.queue[0];
    var n := TakenCount(p);
    assert id == p.ids[n];
    assert TakenCount(q) == n + 1;
    assert p.ids[..n + 1] == p.ids[..n] + [id];
    assert id !in p.owner;
    assert Channel(q);
    forall v | 0 <= v < |q.workers| && q.workers[v].Job().Some?
      ensures var x := q.workers[v].id; x in q.owner && q.owner[x] == v && x !in q.finished
    {
      assert v != w ==> q.workers[v] == p.workers[v];
    }
  }

  lemma TakeInv(env: Env, w0: World, p: Pool, w: nat)
    requires Inv(env, w0, p) && Enabled(p, Work(w)) && p.workers[w].Waiting? && p.queue != []
    ensures Inv(env, w0, WorkStep(env, p, w))
  {
    var q := WorkStep(env, p, w);
    TakeOwnership(env, p, w);
    forall other ensures OnTrack(env, w0, q, other) { assert OnTrack(env, w0, p, other); }
  }

  lemma ExitInv(env: Env, w0: World, p: Pool, w: nat)
    requires Inv(env, w0, p) && Enabled(p, Work(w)) && p.workers[w].Waiting? && p.queue == []
    ensures Inv(env, w0, WorkStep(env, p, w))
  {
    var q := WorkStep(env, p, w);
    assert Channel(q) && Ownership(q);
    forall id ensures OnTrack(env, w0, q, id) { assert OnTrack(env, w0, p, id); }
  }

  lemma JobOwnership(env: Env, p: Pool, w: nat)
    requires Channel(p) && Ownership(p) && Enabled(p, Work(w)) && p.workers[w].Job().Some?
    ensures var q := WorkStep(env, p, w); Channel(q) && Ownership(q)
  {
    var q, k := WorkStep(env, p, w), p.workers[w];
    JobStepResumes(env, k, CellOf(p.world, k.id));
    assert Channel(q);
    assert q.owner == p.owner && TakenCount(q) == TakenCount(p);
    forall v | 0 <= v < |q.workers| && q.workers[v].Job().Some?
      ensures var id := q.workers[v].id; id in q.owner && q.owner[id] == v && id !in q.finished
    {
      assert p.workers[v].Job() == q.workers[v].Job();
    }
  }

  lemma JobInv(env: Env, w0: World, p: Pool, w: nat)
    requires Inv(env, w0, p) && Enabled(p, Work(w)) && p.workers[w].Job().Some?
    ensures Inv(env, w0, WorkStep(env, p, w))
  {
    var q, k := WorkStep(env, p, w), p.workers[w];
    var c := CellOf(p.world, k.id);
    JobOwnership(env, p, w);
    JobStepResumes(env, k, c);
    PutGet(p.world, k.id, JobStep(env, k, c).0);
    forall id ensures OnTrack(env, w0, q, id) {
      assert OnTrack(env, w0, p, id);
      if id in p.owner && id !in p.finished && id != k.id {
        assert q.workers[q.owner[id]] == p.workers[p.owner[id]];
      }
    }
  }

  lemma NextInv(env: Env, w0: World, p: Pool, t: Thread)
    requires Inv(env, w0, p) && Enabled(p, t)
    ensures Inv(env, w0, Next(env, p, t))
  {
    match t
    case Main => MainInv(env, w0, p);
    case Work(w) =>
      if p.workers[w].Job().Some? {
        JobInv(env, w0, p, w);
      } else if p.queue != [] {
        TakeInv(env, w0, p, w);
      } else {
        ExitInv(env, w0, p, w);
      }
  }

  /** Every state every schedule can reach satisfies the invariant. */
  lemma {:induction false} ExecInv(env: Env, w: World, ids: seq<Id>, n: nat, schedule: seq<Thread>)
    requires Distinct(ids)
    requires Exec(env, Init(w, ids, n), schedule).Some?
    ensures var p := Exec(env, Init(w, ids, n), schedule).value;
            Inv(env, w, p) && p.ids == ids && |p.workers| == n
  {
    if schedule == [] {
      InitInv(env, w, ids, n);
    } else {
      ExecInv(env, w, ids, n, schedule[..|schedule| - 1]);
      NextInv(env, w, Exec(env, Init(w, ids, n), schedule[..|schedule| - 1]).value, schedule[|schedule| - 1]);
    }
  }

  // ---- Confluence -----------------------------------------------------------------

  ghost predicate Rearranges(a: seq<Id>, b: seq<Id>) {
    Distinct(a) && Distinct(b) && forall id :: id in a <==> id in b
  }

  /** Whatever the schedule, the worker count and the store errors, a finished cycle has
      completed each id exactly once and left both stores as a sequential pass in any
      order would. */
  lemma Confluence(env: Env, w: World, ids: seq<Id>, n: nat, schedule: seq<Thread>, order: seq<Id>)
    requires Distinct(ids) && n >= 1 && Rearranges(ids, order)
    requires var p := Exec(env, Init(w, ids, n), schedule); p.Some? && p.value.returned
    ensures var p := Exec(env, Init(w, ids, n), schedule).value;
            && p.world == Sequential(env, w, order)
            && Rearranges(ids, p.finished)
  {
    ExecInv(env, w, ids, n, schedule);
    var p := Exec(env, Init(w, ids, n), schedule).value;
    assert p.workers[0].Exited?;
    assert p.ids[..TakenCount(p)] == ids;
    forall id ensures (id in p.finished <==> id in ids) && CellOf(p.world, id) == CellOf(Sequential(env, w, order), id) {
      assert id in ids ==> p.workers[p.owner[id]].Exited?;
      assert OnTrack(env, w, p, id);
      SequentialCell(env, w, order, id);
    }
    SequentialCell(env, w, order, "");
    WorldExtensionality(p.world, Sequential(env, w, order));
  }

  /** With no workers the cycle also ends, but it leaves every server unexamined. */
  lemma NoWorkersNoEffect(env: Env, w: World, ids: seq<Id>, schedule: seq<Thread>)
    requires Distinct(ids)
    requires Exec(env, Init(w, ids, 0), schedule).Some?
    ensures var p := Exec(env, Init(w, ids, 0), schedule).value; p.world == w && forall id :: id !in p.finished
  {
    ExecInv(env, w, ids, 0, schedule);
    var p := Exec(env, Init(w, ids, 0), schedule).value;
    forall id ensures id !in p.owner && CellOf(p.world, id) == CellOf(w, id) {
      assert OnTrack(env, w, p, id);
    }
    WorldExtensionality(p.world, w);
  }

  // ---- Termination and deadlock freedom -------------------------------------------

  function Pending(k: Worker): nat {
    match k
    case Waiting => 1
    case Taken(_) => 6
    case Addressed(_) => 5
    case Pinged(_, _) => 4
    case Loaded(_, _, _) => 3
    case Saved(_, _) => 2
    case Exited => 0
  }

  function TotalPending(ks: seq<Worker>): nat {
    if ks == [] then 0 else TotalPending(ks[..|ks| - 1]) + Pending(ks[|ks| - 1])
  }

  lemma {:induction false} TotalPendingUpdate(ks: seq<Worker>, w: nat, k: Worker)
    requires w < |ks|
    ensures TotalPending(ks[w := k]) == TotalPending(ks) - Pending(ks[w]) + Pending(k)
  {
    var rest := ks[..|ks| - 1];
    if w < |rest| {
      TotalPendingUpdate(rest, w, k);
      assert ks[w := k][..|ks| - 1] == rest[w := k];
    } else {
      assert ks[w := k][..|ks| - 1] == rest;
    }
  }

  function Remaining(p: Pool): int {
    8 * (|p.ids| - p.sent) + 7 * |p.queue| + TotalPending(p.workers)
    + (if p.closed then 0 else 1) + (if p.returned then 0 else 1)
  }

  lemma StepDecreases(env: Env, p: Pool, t: Thread)
    requires Channel(p) && Enabled(p, t)
    ensures Remaining(Next(env, p, t)) < Remaining(p)
  {
    match t
    case Main =>
    case Work(w) =>
      TotalPendingUpdate(p.workers, w, Next(env, p, t).workers[w]);
      assert Next(env, p, t).workers == p.workers[w := Next(env, p, t).workers[w]];
  }

  lemma {:induction false} TotalPendingWaiting(n: nat)
    ensures TotalPending(seq(n, _ => Waiting)) == n
  {
    if n > 0 {
      TotalPendingWaiting(n - 1);
      assert seq(n, _ => Waiting)[..n - 1] == seq(n - 1, _ => Waiting);
    }
  }

  /** No schedule is longer than eight steps per id, one per worker and two more. */
  lemma {:induction false} SchedulesAreBounded(env: Env, w: World, ids: seq<Id>, n: nat, schedule: seq<Thread>)
    requires Distinct(ids)
    requires Exec(env, Init(w, ids, n), schedule).Some?
    ensures |schedule| + Remaining(Exec(env, Init(w, ids, n), schedule).value) <= 8 * |ids| + n + 2
    ensures |schedule| <= 8 * |ids| + n + 2
  {
    ExecInv(env, w, ids, n, schedule);
    if schedule == [] {
      TotalPendingWaiting(n);
    } else {
      var rest := schedule[..|schedule| - 1];
      SchedulesAreBounded(env, w, ids, n, rest);
      ExecInv(env, w, ids, n, rest);
      StepDecreases(env, Exec(env, Init(w, ids, n), rest).value, schedule[|schedule| - 1]);
    }
  }

  /** Until the main thread has returned some thread can always move, so a schedule that
      cannot be extended is a finished cycle. */
  lemma NeverStuck(p: Pool)
    requires !p.returned
    ensures exists t :: Enabled(p, t)
  {
    if Enabled(p, Main) {
    } else {
      var w :| 0 <= w < |p.workers| && !p.workers[w].Exited?;
      assert Enabled(p, Work(w));
    }
  }

  /** The scheduler always picks a thread that is able to move. */
  ghost predicate PicksEnabled(scheduler: Pool -> Thread) {
    forall p: Pool :: !p.returned ==> Enabled(p, scheduler(p))
  }

  lemma ExecStep(env: Env, w: World, ids: seq<Id>, n: nat, schedule: seq<Thread>, p: Pool, t: Thread)
    requires Distinct(ids) && Exec(env, Init(w, ids, n), schedule) == Some(p) && Enabled(p, t)
    ensures Exec(env, Init(w, ids, n), schedule + [t]) == Some(Next(env, p, t))
    ensures Remaining(Next(env, p, t)) < Remaining(p) && Remaining(p) >= 0
  {
    assert (schedule + [t])[..|schedule|] == schedule;
    ExecInv(env, w, ids, n, schedule);
    StepDecreases(env, p, t);
  }

  /** The pool under any such scheduler: it ends, and its result is the sequential one. */
  method RunPool(env: Env, w: World, ids: seq<Id>, concurrency: nat, scheduler: Pool -> Thread) returns (p: Pool)
    requires Distinct(ids) && PicksEnabled(scheduler)
    ensures p.returned
    ensures p.world == if concurrency == 0 then w else Sequential(env, w, ids)
  {
    p := Init(w, ids, concurrency);
    ghost var schedule: seq<Thread> := [];
    while !p.returned
      invariant Exec(env, Init(w, ids, concurrency), schedule) == Some(p)
      decreases Remaining(p)
    {
      var t := scheduler(p);
      ExecStep(env, w, ids, concurrency, schedule, p, t);
      schedule := schedule + [t];
      p := Next(env, p, t);
    }
    if concurrency == 0 {
      NoWorkersNoEffect(env, w, ids, schedule);
    } else {
      Confluence(env, w, ids, concurrency, schedule, ids);
    }
  }

  /** The whole cycle. `listing` is what SMEMBERS answers, a set in some order, or none if
      the call fails; a concurrency below 1 starts no worker. */
  method Run(env: Env, w: World, listing: Option<seq<Id>>, concurrency: int, scheduler: Pool -> Thread) returns (ok: bool, w': World)
    requires (listing.Some? ==> Distinct(listing.value)) && PicksEnabled(scheduler)
    ensures ok == listing.Some?
    ensures w' == if ok && concurrency >= 1 then Sequential(env, w, listing.value) else w
  {
    if listing.None? { return false, w; }
    if |listing.value| == 0 { return true, w; }
    var p := RunPool(env, w, listing.value, if concurrency < 0 then 0 else concurrency, scheduler);
    return true, p.world;
  }
}
