/** The report workers: requests are persisted, queued on a bounded channel and processed
    by a fixed number of workers, each store write of which may fail. */
module ReportingPool {
  import opened Stores

  type Rid = string

  datatype Status = Pending | Processing | Completed | Failed

  /** For each report, every status its row has held, in order. */
  type History = map<Rid, seq<Status>>

  datatype Worker =
    | Idle
    | Got(id: Rid)                // about to write PROCESSING
    | Working(id: Rid)            // generating and mailing the report
    | Worked(id: Rid, ok: bool)   // about to write the final status
    | Gone
  {
    predicate Holds(r: Rid) {
      !Idle? && !Gone? && id == r
    }
  }

  /** `clients` are requests persisted but not yet accepted by the channel; `owner`, the
      outcome of the work and the reports a status write of which has failed are histories. */
  datatype Pool = Pool(
    capacity: nat, history: History, clients: set<Rid>, queue: seq<Rid>, closed: bool,
    workers: seq<Worker>, owner: map<Rid, nat>, outcome: map<Rid, bool>, faulted: set<Rid>)

  datatype Step =
    | Request(id: Rid, stored: bool)
    | Enqueue(id: Rid)
    | Take(w: nat)
    | Begin(w: nat, stored: bool)
    | DoWork(w: nat, ok: bool)
    | Record(w: nat, stored: bool)
    | Exit(w: nat)
    | Close

  function WorkersFor(configured: int): nat { if configured <= 0 then 5 else configured }

  function CapacityFor(configured: int): nat { if configured <= 0 then 100 else configured }

  function Init(workerCount: int, queueSize: int): Pool {
    Pool(CapacityFor(queueSize), map[], {}, [], false, seq(WorkersFor(workerCount), _ => Idle), map[], map[], {})
  }

  /** Ids are fresh; a send waits for room, and on a closed channel would panic. */
  predicate Enabled(p: Pool, e: Step) {
    match e
    case Request(id, _) => id !in p.history
    case Enqueue(id) => id in p.clients && !p.closed && |p.queue| < p.capacity
    case Take(w) => w < |p.workers| && p.workers[w].Idle? && p.queue != []
    case Begin(w, _) => w < |p.workers| && p.workers[w].Got?
    case DoWork(w, _) => w < |p.workers| && p.workers[w].Working?
    case Record(w, _) => w < |p.workers| && p.workers[w].Worked?
    case Exit(w) => w < |p.workers| && p.workers[w].Idle? && p.closed && p.queue == []
    case Close => !p.closed
  }

  /** UPDATE of the status column; an error leaves the row as it was. */
  function Write(h: History, id: Rid, s: Status, stored: bool): History {
    if stored && id in h then h[id := h[id] + [s]] else h
  }

  function FinalStatus(ok: bool): Status { if ok then Completed else Failed }

  function Next(p: Pool, e: Step): Pool
    requires Enabled(p, e)
  {
    match e
    case Request(id, stored) =>
      if stored then p.(history := p.history[id := [Pending]], clients := p.clients + {id}) else p
    case Enqueue(id) => p.(clients := p.clients - {id}, queue := p.queue + [id])
    case Take(w) =>
      p.(queue := p.queue[1..], workers := p.workers[w := Got(p.queue[0])], owner := p.owner[p.queue[0] := w])
    case Begin(w, stored) =>
      var id := p.workers[w].id;
      p.(history := Write(p.history, id, Processing, stored),
         workers := p.workers[w := if stored then Working(id) else Idle],
         faulted := if stored then p.faulted else p.faulted + {id})
    case DoWork(w, ok) =>
      var id := p.workers[w].id;
      p.(workers := p.workers[w := Worked(id, ok)], outcome := p.outcome[id := ok])
    case Record(w, stored) =>
      var Worked(id, ok) := p.workers[w];
      p.(history := Write(p.history, id, FinalStatus(ok), stored),
         workers := p.workers[w := Idle],
         faulted := if stored then p.faulted else p.faulted + {id})
    case Exit(w) => p.(workers := p.workers[w := Gone])
    case Close => p.(closed := true)
  }

  function Exec(p: Pool, steps: seq<Step>): Option<Pool> {
    if steps == [] then Some(p)
    else match Exec(p, steps[..|steps| - 1])
      case None => None
      case Some(q) => if Enabled(q, steps[|steps| - 1]) then Some(Next(q, steps[|steps| - 1])) else None
  }

  // ---- The invariant --------------------------------------------------------------

  /** Waiting reports, taken reports and pending clients are three separate groups. */
  ghost predicate Groups(p: Pool) {
    && Distinct(p.queue)
    && (forall id :: id in p.queue ==> id !in p.owner && id !in p.clients)
    && (forall id :: id in p.clients ==> id !in p.owner)
    && (forall id :: id in p.history <==> id in p.queue || id in p.clients || id in p.owner)
  }

  ghost predicate Rightful(p: Pool, w: nat)
    requires w < |p.workers|
  {
    match p.workers[w]
    case Idle => true
    case Gone => p.closed && p.queue == []
    case k => k.id in p.owner && p.owner[k.id] == w
  }

  /** A worker holds only what it received, and leaves only after the last report. */
  ghost predicate Holding(p: Pool) {
    && (forall id :: id in p.owner ==> p.owner[id] < |p.workers|)
    && (forall w: nat :: w < |p.workers| ==> Rightful(p, w))
  }

  ghost predicate Separate(p: Pool) {
    Groups(p) && Holding(p)
  }

  predicate Path(h: seq<Status>) {
    h == [Pending] || h == [Pending, Processing] || h == [Pending, Processing, Completed] || h == [Pending, Processing, Failed]
  }

  predicate Terminal(h: seq<Status>) {
    h == [Pending, Processing, Completed] || h == [Pending, Processing, Failed]
  }

  /** What the stored history of one report can be, depending on where the report is. */
  ghost predicate Tracked(p: Pool, id: Rid)
    requires Separate(p) && id in p.history
  {
    var h := p.history[id];
    if id !in p.owner then h == [Pending] && id !in p.faulted
    else
      var k := p.workers[p.owner[id]];
      if !k.Holds(id) then
        && Path(h)
        && (Terminal(h) <==> id !in p.faulted)
        && (Completed in h ==> id in p.outcome && p.outcome[id])
        && (Failed in h ==> id in p.outcome && !p.outcome[id])
      else id !in p.faulted && match k
        case Got(_) => h == [Pending]
        case Working(_) => h == [Pending, Processing]
        case Worked(_, ok) => h == [Pending, Processing] && id in p.outcome && p.outcome[id] == ok
        case _ => false
  }

  ghost predicate Inv(p: Pool) {
    && Separate(p)
    && |p.queue| <= p.capacity
    && (forall id :: id in p.faulted ==> id in p.history)
    && forall id :: id in p.history ==> Tracked(p, id)
  }

  lemma ClientSeparate(p: Pool, e: Step)
    requires Separate(p) && Enabled(p, e) && (e.Request? || e.Enqueue? || e.Close?)
    ensures Separate(Next(p, e))
  {
    var q := Next(p, e);
    assert Groups(q);
    forall v: nat | v < |q.workers| ensures Rightful(q, v) { assert Rightful(p, v); }
  }

  lemma ClientInv(p: Pool, e: Step)
    requires Inv(p) && Enabled(p, e) && (e.Request? || e.Enqueue? || e.Close?)
    ensures Inv(Next(p, e))
  {
    var q := Next(p, e);
    ClientSeparate(p, e);
    forall id | id in q.history ensures Tracked(q, id) {
      if id in p.history { assert Tracked(p, id); }
    }
  }

  lemma TakeSeparate(p: Pool, w: nat)
    requires Separate(p) && Enabled(p, Take(w))
    ensures Separate(Next(p, Take(w)))
  {
    var q, head := Next(p, Take(w)), p.queue[0];
    assert p.queue == [head] + p.queue[1..];
    assert head in p.queue;
    assert Groups(q) by {
      assert forall id :: id in p.queue <==> id == head || id in q.queue;
    }
    forall v: nat | v < |q.workers| ensures Rightful(q, v) { assert Rightful(p, v); }
  }

  lemma TakeInv(p: Pool, w: nat)
    requires Inv(p) && Enabled(p, Take(w))
    ensures Inv(Next(p, Take(w)))
  {
    var q := Next(p, Take(w));
    TakeSeparate(p, w);
    assert p.queue[0] in p.queue;
    forall id | id in q.history ensures Tracked(q, id) { assert Tracked(p, id); }
  }

  lemma ExitInv(p: Pool, w: nat)
    requires Inv(p) && Enabled(p, Exit(w))
    ensures Inv(Next(p, Exit(w)))
  {
    var q := Next(p, Exit(w));
    assert Groups(q);
    forall v: nat | v < |q.workers| ensures Rightful(q, v) { assert Rightful(p, v); }
    forall id | id in q.history ensures Tracked(q, id) { assert Tracked(p, id); }
  }

  lemma JobSeparate(p: Pool, e: Step)
    requires Separate(p) && Enabled(p, e) && (e.Begin? || e.DoWork? || e.Record?)
    ensures Separate(Next(p, e)) && Next(p, e).history.Keys == p.history.Keys
  {
    var q := Next(p, e);
    assert Rightful(p, e.w);
    assert q.history.Keys == p.history.Keys;
    assert Groups(q);
    forall v: nat | v < |q.workers| ensures Rightful(q, v) { assert Rightful(p, v); }
  }

  lemma OthersTracked(p: Pool, e: Step, id: Rid)
    requires Inv(p) && Enabled(p, e) && (e.Begin? || e.DoWork? || e.Record?) && Separate(Next(p, e))
    requires id in p.history && id in Next(p, e).history && id != p.workers[e.w].id
    ensures Tracked(Next(p, e), id)
  {
    assert Tracked(p, id);
  }

  lemma OwnTracked(p: Pool, e: Step)
    requires Inv(p) && Enabled(p, e) && (e.Begin? || e.DoWork? || e.Record?) && Separate(Next(p, e))
    requires p.workers[e.w].id in p.history && p.workers[e.w].id in Next(p, e).history
    ensures Tracked(Next(p, e), p.workers[e.w].id)
  {
    assert Tracked(p, p.workers[e.w].id);
    assert Rightful(p, e.w);
    assert [Pending, Processing] + [Completed] == [Pending, Processing, Completed];
    assert [Pending, Processing] + [Failed] == [Pending, Processing, Failed];
    assert [Pending] + [Processing] == [Pending, Processing];
  }

  lemma JobInv(p: Pool, e: Step)
    requires Inv(p) && Enabled(p, e) && (e.Begin? || e.DoWork? || e.Record?)
    ensures Inv(Next(p, e))
  {
    JobSeparate(p, e);
    assert Rightful(p, e.w);
    forall id | id in Next(p, e).history ensures Tracked(Next(p, e), id) {
      if id == p.workers[e.w].id { OwnTracked(p, e); } else { OthersTracked(p, e, id); }
    }
  }

  lemma NextInv(p: Pool, e: Step)
    requires Inv(p) && Enabled(p, e)
    ensures Inv(Next(p, e))
  {
    match e
    case Take(w) => TakeInv(p, w);
    case Exit(w) => ExitInv(p, w);
    case Begin(_, _) => JobInv(p, e);
    case DoWork(_, _) => JobInv(p, e);
    case Record(_, _) => JobInv(p, e);
    case _ => ClientInv(p, e);
  }

  lemma {:induction false} ExecInv(workerCount: int, queueSize: int, steps: seq<Step>)
    requires Exec(Init(workerCount, queueSize), steps).Some?
    ensures var p := Exec(Init(workerCount, queueSize), steps).value;
            Inv(p) && |p.workers| == WorkersFor(workerCount) && p.capacity == CapacityFor(queueSize)
  {
    if steps != [] {
      ExecInv(workerCount, queueSize, steps[..|steps| - 1]);
      NextInv(Exec(Init(workerCount, queueSize), steps[..|steps| - 1]).value, steps[|steps| - 1]);
    }
  }

  /** Positive settings are taken as they are; any other means 5 workers or 100 places. */
  lemma PoolSizes(workerCount: int, queueSize: int)
    ensures var p := Init(workerCount, queueSize);
            && (workerCount > 0 ==> |p.workers| == workerCount) && (workerCount <= 0 ==> |p.workers| == 5)
            && (queueSize > 0 ==> p.capacity == queueSize) && (queueSize <= 0 ==> p.capacity == 100)
            && p.history == map[] && p.queue == [] && !p.closed
  {
  }

  /** A request that cannot be persisted leaves no trace. */
  lemma LostRequestLeavesNothing(p: Pool, id: Rid)
    requires Enabled(p, Request(id, false))
    ensures Next(p, Request(id, false)) == p
  {
  }

  // ---- What runs guarantee --------------------------------------------------------

  /** In every run, with any configuration and any store errors, every stored history is
      a prefix of PENDING, PROCESSING, then COMPLETED or FAILED, and the final status is
      what the work's outcome was. */
  lemma HistoriesAreLegal(workerCount: int, queueSize: int, steps: seq<Step>, id: Rid)
    requires Exec(Init(workerCount, queueSize), steps).Some?
    requires id in Exec(Init(workerCount, queueSize), steps).value.history
    ensures var p := Exec(Init(workerCount, queueSize), steps).value;
            && Path(p.history[id])
            && (Completed in p.history[id] ==> id in p.outcome && p.outcome[id])
            && (Failed in p.history[id] ==> id in p.outcome && !p.outcome[id])
  {
    ExecInv(workerCount, queueSize, steps);
    assert Tracked(Exec(Init(workerCount, queueSize), steps).value, id);
  }

  function TakenBy(p: Pool, e: Step): Option<Rid> {
    if e.Take? && p.queue != [] then Some(p.queue[0]) else None
  }

  lemma {:induction false} OwnersStay(p: Pool, steps: seq<Step>, id: Rid)
    requires id in p.owner && Exec(p, steps).Some?
    ensures id in Exec(p, steps).value.owner
  {
    if steps != [] { OwnersStay(p, steps[..|steps| - 1], id); }
  }

  lemma {:induction false} ExecSplit(p: Pool, a: seq<Step>, b: seq<Step>)
    ensures Exec(p, a + b) == match Exec(p, a) case None => None case Some(q) => Exec(q, b)
  {
    if b == [] {
      assert a + b == a;
    } else {
      assert (a + b)[..|a + b| - 1] == a + b[..|b| - 1];
      ExecSplit(p, a, b[..|b| - 1]);
    }
  }

  /** No report is received twice, by the same worker or by another. */
  lemma TakenOnce(workerCount: int, queueSize: int, a: seq<Step>, v: nat, b: seq<Step>, w: nat)
    requires var p := Exec(Init(workerCount, queueSize), a + [Take(v)] + b); p.Some? && Enabled(p.value, Take(w))
    ensures var p0 := Exec(Init(workerCount, queueSize), a);
            && p0.Some? && Enabled(p0.value, Take(v))
            && TakenBy(p0.value, Take(v)) != TakenBy(Exec(Init(workerCount, queueSize), a + [Take(v)] + b).value, Take(w))
  {
    var s0 := Init(workerCount, queueSize);
    ExecSplit(s0, a + [Take(v)], b);
    ExecSplit(s0, a, [Take(v)]);
    assert (a + [Take(v)])[..|a|] == a;
    var p0 := Exec(s0, a).value;
    var p1 := Exec(s0, a + [Take(v)]).value;
    assert p0.queue[0] in p1.owner;
    OwnersStay(p1, b, p0.queue[0]);
    ExecInv(workerCount, queueSize, a + [Take(v)] + b);
    var p := Exec(s0, a + [Take(v)] + b).value;
    assert p.queue[0] in p.queue;
  }

  predicate Stopped(p: Pool) {
    p.closed && forall w :: 0 <= w < |p.workers| ==> p.workers[w].Gone?
  }

  /** When Stop returns the queue is empty, and a report that ever entered it has reached
      its final status if and only if neither of its own two status writes failed,
      whatever became of the others. */
  lemma StopLeavesTerminal(workerCount: int, queueSize: int, steps: seq<Step>, id: Rid)
    requires var p := Exec(Init(workerCount, queueSize), steps); p.Some? && Stopped(p.value)
    requires var p := Exec(Init(workerCount, queueSize), steps).value; id in p.history && id !in p.clients
    ensures var p := Exec(Init(workerCount, queueSize), steps).value;
            p.queue == [] && (Terminal(p.history[id]) <==> id !in p.faulted)
  {
    ExecInv(workerCount, queueSize, steps);
    var p := Exec(Init(workerCount, queueSize), steps).value;
    assert p.workers[0].Gone? && Rightful(p, 0);
    assert Tracked(p, id);
  }

  /** Close is final: in no run after it does a report enter the queue, which only empties. */
  lemma {:induction false} CloseIsFinal(p: Pool, steps: seq<Step>)
    requires Enabled(p, Close) && Exec(Next(p, Close), steps).Some?
    ensures var end := Exec(Next(p, Close), steps).value;
            end.closed && |end.queue| <= |p.queue| && end.queue == p.queue[|p.queue| - |end.queue|..]
  {
    if steps != [] { CloseIsFinal(p, steps[..|steps| - 1]); }
  }

  /** After Close, until all workers are gone, some worker can always move. */
  lemma StopIsNeverStuck(p: Pool)
    requires p.closed && !Stopped(p)
    ensures exists e :: Enabled(p, e) && (e.Take? || e.Begin? || e.DoWork? || e.Record? || e.Exit?)
  {
    var w: nat :| w < |p.workers| && !p.workers[w].Gone?;
    match p.workers[w]
    case Idle => assert if p.queue != [] then Enabled(p, Take(w)) else Enabled(p, Exit(w));
    case Got(_) => assert Enabled(p, Begin(w, true));
    case Working(_) => assert Enabled(p, DoWork(w, true));
    case Worked(_, _) => assert Enabled(p, Record(w, true));
    case Gone =>
  }

  function Left(k: Worker): nat {
    match k
    case Idle => 1
    case Got(_) => 4
    case Working(_) => 3
    case Worked(_, _) => 2
    case Gone => 0
  }

  function TotalLeft(ks: seq<Worker>): nat {
    if ks == [] then 0 else TotalLeft(ks[..|ks| - 1]) + Left(ks[|ks| - 1])
  }

  lemma {:induction false} TotalLeftUpdate(ks: seq<Worker>, w: nat, k: Worker)
    requires w < |ks|
    ensures TotalLeft(ks[w := k]) == TotalLeft(ks) - Left(ks[w]) + Left(k)
  {
    var n := |ks| - 1;
    if w < n {
      TotalLeftUpdate(ks[..n], w, k);
      assert ks[w := k][..n] == ks[..n][w := k];
    } else {
      assert ks[w := k][..n] == ks[..n];
    }
  }

  /** The steps workers can still take on a closed channel, at most. */
  function StepsLeft(p: Pool): nat {
    4 * |p.queue| + TotalLeft(p.workers)
  }

  /** So Stop returns: on a closed channel every step of a worker lowers a bound that no
      other step raises. */
  lemma StopIsBounded(p: Pool, e: Step)
    requires p.closed && Enabled(p, e)
    ensures if e.Request? then StepsLeft(Next(p, e)) == StepsLeft(p) else StepsLeft(Next(p, e)) < StepsLeft(p)
  {
    if !e.Request? {
      var k := Next(p, e).workers[e.w];
      TotalLeftUpdate(p.workers, e.w, k);
      assert Next(p, e).workers == p.workers[e.w := k];
    }
  }

  // ---- Requests and jobs as programs ------------------------------------------------

  /** The steps of a request, its send included if the channel has room. */
  function RequestSteps(id: Rid, stored: bool, room: bool): seq<Step> {
    if stored && room then [Request(id, true), Enqueue(id)] else [Request(id, stored)]
  }

  /** The steps of a receive: a waiting send, if there is one, completes with it. */
  function ReceiveSteps(w: nat, senders: seq<Rid>): seq<Step> {
    if senders == [] then [Take(w)] else [Take(w), Enqueue(senders[0])]
  }

  function JobSteps(w: nat, failsFirst: bool, workOk: bool, failsLast: bool): seq<Step> {
    if failsFirst then [Begin(w, false)] else [Begin(w, true), DoWork(w, workOk), Record(w, !failsLast)]
  }

  class ReportingWorker {
    var history: History
    var jobQueue: seq<Rid>
    var senders: seq<Rid>      // requests blocked at the full channel, first come first served
    const capacity: nat
    const workerCount: nat
    ghost var steps: seq<Step> // the run of the protocol so far,
    ghost var pool: Pool       // and the state it has led to

    /** The object is in the state `pool`, `waiting` being the requests not yet sent. */
    ghost predicate Tied(waiting: seq<Rid>)
      reads this
    {
      && Exec(Init(workerCount, capacity), steps) == Some(pool)
      && pool.history == history && pool.queue == jobQueue && pool.capacity == capacity && !pool.closed
      && |pool.workers| == workerCount && |jobQueue| <= capacity
      && Distinct(waiting) && (forall id :: id in pool.clients <==> id in waiting) && (forall id :: id in waiting ==> id in history)
    }

    ghost predicate Valid()
      reads this
    {
      capacity >= 1 && (senders != [] ==> |jobQueue| == capacity) && Tied(senders)
    }

    constructor (workerCount: int, jobQueueSize: int)
      ensures this.workerCount == WorkersFor(workerCount) && capacity == CapacityFor(jobQueueSize)
      ensures workerCount > 0 ==> this.workerCount == workerCount
      ensures jobQueueSize > 0 ==> capacity == jobQueueSize
      ensures this.workerCount >= 1 && Valid() && steps == [] && pool == Init(workerCount, jobQueueSize)
      ensures jobQueue == [] && senders == [] && history == map[]
    {
      this.workerCount := if workerCount <= 0 then 5 else workerCount;
      capacity := if jobQueueSize <= 0 then 100 else jobQueueSize;
      history, jobQueue, senders := map[], [], [];
      steps, pool := [], Init(workerCount, jobQueueSize);
    }

    method UpdateReportStatus(id: Rid, s: Status, fails: bool) returns (ok: bool)
      modifies `history
      ensures ok == !fails && history == Write(old(history), id, s, ok)
    {
      if fails { return false; }
      if id in history { history := history[id := history[id] + [s]]; }
      return true;
    }

    ghost method Advance(e: Step)
      requires Exec(Init(workerCount, capacity), steps) == Some(pool) && Enabled(pool, e)
      modifies `steps, `pool
      ensures Exec(Init(workerCount, capacity), steps) == Some(pool)
      ensures steps == old(steps) + [e] && pool == Next(old(pool), e)
    {
      assert (steps + [e])[..|steps|] == steps;
      steps, pool := steps + [e], Next(pool, e);
    }

    /** A send: into the channel if it has room, and otherwise it waits. */
    method EnqueueReport(id: Rid)
      requires capacity >= 1 && (senders != [] ==> |jobQueue| == capacity) && Tied(senders + [id])
      modifies `jobQueue, `senders, `steps, `pool
      ensures Valid() && jobQueue + senders == old(jobQueue + senders) + [id]
      ensures steps == old(steps) + if |old(jobQueue)| < capacity then [Enqueue(id)] else []
    {
      assert id in senders + [id];
      if |jobQueue| < capacity {
        assert senders + [id] == [id];
        Advance(Enqueue(id));
        jobQueue := jobQueue + [id];
      } else {
        senders := senders + [id];
        assert jobQueue + senders == old(jobQueue + senders) + [id];
      }
    }

    /** Persist, then send: requests are served in the order of their sends, and one that
        could not be persisted is never sent. */
    method RequestReport(id: Rid, fails: bool) returns (ok: bool)
      requires Valid() && id !in history
      modifies this
      ensures Valid() && ok == !fails
      ensures steps == old(steps) + RequestSteps(id, ok, |old(jobQueue)| < capacity)
      ensures history == if ok then old(history)[id := [Pending]] else old(history)
      ensures jobQueue + senders == old(jobQueue + senders) + if ok then [id] else []
    {
      if fails {
        Advance(Request(id, false));
        return false;
      }
      assert id !in senders;
      Advance(Request(id, true));
      history := history[id := [Pending]];
      EnqueueReport(id);
      assert old(steps) + [Request(id, true)] + [Enqueue(id)] == old(steps) + [Request(id, true), Enqueue(id)];
      return true;
    }

    /** The first waiting request enters the channel, which has room again. */
    method AdmitSender()
      requires capacity >= 1 && Tied(senders) && senders != [] && |jobQueue| == capacity - 1
      modifies `jobQueue, `senders, `steps, `pool
      ensures Valid() && jobQueue + senders == old(jobQueue + senders)
      ensures steps == old(steps) + [Enqueue(old(senders)[0])] && pool.workers == old(pool).workers
    {
      var next := senders[0];
      assert next in senders;
      Advance(Enqueue(next));
      jobQueue, senders := jobQueue + [next], senders[1..];
      assert old(senders) == [next] + senders;
    }

    /** A worker's receive: the oldest report, and the first waiting request moves up. */
    method ReceiveReport(w: nat) returns (id: Rid)
      requires Valid() && jobQueue != [] && w < workerCount && pool.workers[w].Idle?
      modifies `jobQueue, `senders, `steps, `pool
      ensures Valid() && [id] + jobQueue + senders == old(jobQueue + senders)
      ensures steps == old(steps) + ReceiveSteps(w, old(senders))
      ensures pool.workers == old(pool).workers[w := Got(id)]
    {
      id := jobQueue[0];
      Advance(Take(w));
      jobQueue := jobQueue[1..];
      assert [id] + (jobQueue + senders) == old(jobQueue + senders);
      if senders != [] { AdmitSender(); }
      assert [id] + jobQueue + senders == [id] + (jobQueue + senders);
      assert forall e :: old(steps) + [Take(w)] + [e] == old(steps) + [Take(w), e];
    }

    /** One job, on whatever row it finds: two writes at most, the second only after the
        first. It touches no other report, and takes a pending one to a final status
        exactly if neither write failed. */
    method ProcessReport(id: Rid, failsFirst: bool, workOk: bool, failsLast: bool)
      modifies `history
      ensures history == Write(if failsFirst then old(history) else Write(old(history), id, Processing, true),
                               id, FinalStatus(workOk), !failsFirst && !failsLast)
      ensures id in old(history) && old(history)[id] == [Pending] ==>
                id in history && Path(history[id]) && (Terminal(history[id]) <==> !failsFirst && !failsLast)
      ensures forall x :: x != id ==> Lookup(history, x) == Lookup(old(history), x)
    {
      var ok := UpdateReportStatus(id, Processing, failsFirst);
      if !ok { return; }
      var final := Completed;
      if !workOk { final := Failed; }
      var _ := UpdateReportStatus(id, final, failsLast);
    }

    /** The steps of a job on the report that the worker holds. */
    ghost method AdvanceJob(w: nat, failsFirst: bool, workOk: bool, failsLast: bool)
      requires Exec(Init(workerCount, capacity), steps) == Some(pool) && w < |pool.workers| && pool.workers[w].Got?
      modifies `steps, `pool
      ensures Exec(Init(workerCount, capacity), steps) == Some(pool)
      ensures steps == old(steps) + JobSteps(w, failsFirst, workOk, failsLast)
      ensures var p, id := old(pool), old(pool).workers[w].id;
              && pool.history == Write(if failsFirst then p.history else Write(p.history, id, Processing, true),
                                       id, FinalStatus(workOk), !failsFirst && !failsLast)
              && |pool.workers| == |p.workers| && pool.workers[w].Idle?
              && pool.queue == p.queue && pool.clients == p.clients && pool.capacity == p.capacity && pool.closed == p.closed
    {
      Advance(Begin(w, !failsFirst));
      if !failsFirst {
        Advance(DoWork(w, workOk));
        Advance(Record(w, !failsLast));
        assert old(steps) + [Begin(w, true)] + [DoWork(w, workOk)] + [Record(w, !failsLast)]
            == old(steps) + JobSteps(w, failsFirst, workOk, failsLast);
      }
    }

    /** One turn of a worker: receive a report and process it. */
    method WorkerTurn(w: nat, failsFirst: bool, workOk: bool, failsLast: bool)
      requires Valid() && jobQueue != [] && w < workerCount && pool.workers[w].Idle?
      modifies this
      ensures Valid() && pool.workers[w].Idle?
      ensures steps == old(steps) + ReceiveSteps(w, old(senders)) + JobSteps(w, failsFirst, workOk, failsLast)
    {
      var id := ReceiveReport(w);
      AdvanceJob(w, failsFirst, workOk, failsLast);
      ProcessReport(id, failsFirst, workOk, failsLast);
    }
  }
}
