/** The buffered observation logger: a bounded channel that never blocks its writers,
    and one flusher that empties it into batches and hands these to a sink. */
module ObservationLogger {

  datatype Observation = Observation(server: string, success: bool, time: int)

  /** `accepted` and `flushed` are the histories of the channel's input and of the sink. */
  datatype State = State(
    capacity: nat, batchSize: nat,
    queue: seq<Observation>, closed: bool,
    batch: seq<Observation>, exited: bool,
    accepted: seq<Observation>, dropped: seq<Observation>, flushed: seq<seq<Observation>>)

  datatype Step =
    | Send(o: Observation)      // the channel has room
    | Handoff(o: Observation)   // unbuffered channel, and the flusher is waiting at it
    | Drop(o: Observation)      // neither
    | Receive
    | Tick
    | Close
    | Finish                    // the flusher sees the channel closed and empty

  function Init(capacity: nat, batchSize: nat): State {
    State(capacity, batchSize, [], false, [], false, [], [], [])
  }

  /** Logging after Close would panic, so no run contains it. */
  predicate Enabled(s: State, e: Step) {
    match e
    case Send(_) => !s.closed && |s.queue| < s.capacity
    case Handoff(_) => !s.closed && s.capacity == 0 && !s.exited
    case Drop(_) => !s.closed && |s.queue| == s.capacity
    case Receive => !s.exited && s.queue != []
    case Tick => !s.exited
    case Close => !s.closed
    case Finish => !s.exited && s.closed && s.queue == []
  }

  function Flush(s: State): State {
    s.(flushed := s.flushed + [s.batch], batch := [])
  }

  function Append(s: State, o: Observation): State {
    var s' := s.(batch := s.batch + [o]);
    if |s'.batch| >= s.batchSize then Flush(s') else s'
  }

  function Next(s: State, e: Step): State
    requires Enabled(s, e)
  {
    match e
    case Send(o) => s.(queue := s.queue + [o], accepted := s.accepted + [o])
    case Handoff(o) => Append(s.(accepted := s.accepted + [o]), o)
    case Drop(o) => s.(dropped := s.dropped + [o])
    case Receive => Append(s.(queue := s.queue[1..]), s.queue[0])
    case Tick => if |s.batch| > 0 then Flush(s) else s
    case Close => s.(closed := true)
    case Finish => (if |s.batch| > 0 then Flush(s) else s).(exited := true)
  }

  function Exec(s: State, steps: seq<Step>): (State, bool) {
    if steps == [] then (s, true)
    else
      var (s', ok) := Exec(s, steps[..|steps| - 1]);
      if ok && Enabled(s', steps[|steps| - 1]) then (Next(s', steps[|steps| - 1]), true) else (s', false)
  }

  function Concat(bs: seq<seq<Observation>>): seq<Observation> {
    if bs == [] then [] else Concat(bs[..|bs| - 1]) + bs[|bs| - 1]
  }

  lemma ConcatAppend(bs: seq<seq<Observation>>, b: seq<Observation>)
    ensures Concat(bs + [b]) == Concat(bs) + b
  {
    assert (bs + [b])[..|bs|] == bs;
  }

  /** Batches of size zero in the configuration still flush one observation at a time. */
  function MaxBatch(s: State): nat {
    if s.batchSize == 0 then 1 else s.batchSize
  }

  /** Nothing accepted is lost, duplicated or reordered between channel, batch and sink. */
  ghost predicate Inv(s: State) {
    && s.accepted == Concat(s.flushed) + s.batch + s.queue
    && |s.queue| <= s.capacity
    && |s.batch| < MaxBatch(s)
    && (forall i :: 0 <= i < |s.flushed| ==> 1 <= |s.flushed[i]| <= MaxBatch(s))
    && (s.exited ==> s.closed && s.queue == [] && s.batch == [])
  }

  lemma FlushInv(s: State)
    requires s.batch != [] && Inv(s)
    ensures Inv(Flush(s))
  {
    ConcatAppend(s.flushed, s.batch);
  }

  /** All of the invariant but the hand-over of one observation. */
  ghost predicate Holding(s: State, o: Observation) {
    && |s.queue| <= s.capacity && |s.batch| < MaxBatch(s) && !s.exited
    && (forall i :: 0 <= i < |s.flushed| ==> 1 <= |s.flushed[i]| <= MaxBatch(s))
    && s.accepted == Concat(s.flushed) + (s.batch + [o]) + s.queue
  }

  lemma AppendKeeps(s: State, o: Observation)
    requires Holding(s, o)
    ensures Inv(Append(s, o))
  {
    var b := s.batch + [o];
    if |b| >= s.batchSize {
      ConcatAppend(s.flushed, b);
      assert Concat(s.flushed) + b + [] == Concat(s.flushed) + b;
      assert forall i :: 0 <= i < |s.flushed| ==> (s.flushed + [b])[i] == s.flushed[i];
    }
  }

  lemma SendInv(s: State, o: Observation)
    requires Inv(s) && Enabled(s, Send(o))
    ensures Inv(Next(s, Send(o)))
  {
    assert s.accepted + [o] == Concat(s.flushed) + s.batch + (s.queue + [o]);
  }

  lemma HandoffInv(s: State, o: Observation)
    requires Inv(s) && Enabled(s, Handoff(o))
    ensures Inv(Next(s, Handoff(o)))
  {
    assert s.queue == [];
    assert s.accepted + [o] == Concat(s.flushed) + (s.batch + [o]) + [];
    AppendKeeps(s.(accepted := s.accepted + [o]), o);
  }

  lemma ReceiveInv(s: State)
    requires Inv(s) && Enabled(s, Receive)
    ensures Inv(Next(s, Receive))
  {
    assert s.queue == [s.queue[0]] + s.queue[1..];
    assert s.accepted == Concat(s.flushed) + (s.batch + [s.queue[0]]) + s.queue[1..];
    AppendKeeps(s.(queue := s.queue[1..]), s.queue[0]);
  }

  lemma NextInv(s: State, e: Step)
    requires Inv(s) && Enabled(s, e)
    ensures Inv(Next(s, e))
  {
    match e
    case Send(o) => SendInv(s, o);
    case Handoff(o) => HandoffInv(s, o);
    case Receive => ReceiveInv(s);
    case Tick => if s.batch != [] { FlushInv(s); }
    case Finish => if s.batch != [] { FlushInv(s); }
    case _ =>
  }

  /** A tick hands over everything received so far, as one batch if there is any. */
  lemma TickFlushesAll(s: State)
    requires Inv(s) && Enabled(s, Tick)
    ensures var s' := Next(s, Tick);
            && s'.batch == [] && s'.queue == s.queue && s'.accepted == s.accepted
            && Concat(s'.flushed) + s'.queue == s'.accepted
            && s'.flushed == s.flushed + if s.batch == [] then [] else [s.batch]
  {
    NextInv(s, Tick);
    var s' := Next(s, Tick);
    assert Concat(s'.flushed) + [] + s'.queue == Concat(s'.flushed) + s'.queue;
  }

  /** A received observation joins the batch, which is handed over exactly when it has
      reached the batch size, or one. */
  lemma ReceiveFlushesIff(s: State)
    requires Inv(s) && Enabled(s, Receive)
    ensures var s', batch := Next(s, Receive), s.batch + [s.queue[0]];
            && s'.queue == s.queue[1..]
            && if |batch| == (if s.batchSize == 0 then 1 else s.batchSize)
               then s'.flushed == s.flushed + [batch] && s'.batch == []
               else s'.flushed == s.flushed && s'.batch == batch
  {
  }

  /** Conservation in every reachable state, for every capacity and batch size; and once
      the flusher has exited, the sink has received exactly what was accepted, in order. */
  lemma {:induction false} Conservation(capacity: nat, batchSize: nat, steps: seq<Step>)
    requires Exec(Init(capacity, batchSize), steps).1
    ensures var s := Exec(Init(capacity, batchSize), steps).0;
            && Inv(s) && s.capacity == capacity && s.batchSize == batchSize
            && (s.exited ==> Concat(s.flushed) == s.accepted)
  {
    if steps != [] {
      Conservation(capacity, batchSize, steps[..|steps| - 1]);
      NextInv(Exec(Init(capacity, batchSize), steps[..|steps| - 1]).0, steps[|steps| - 1]);
    }
    var s := Exec(Init(capacity, batchSize), steps).0;
    assert s.exited ==> Concat(s.flushed) + [] + [] == Concat(s.flushed);
  }

  function Offered(steps: seq<Step>): seq<Observation> {
    if steps == [] then []
    else
      var e := steps[|steps| - 1];
      Offered(steps[..|steps| - 1]) + if e.Send? || e.Handoff? || e.Drop? then [e.o] else []
  }

  lemma StepOffers(s: State, e: Step)
    requires Enabled(s, e)
    ensures var s' := Next(s, e);
            && s'.accepted == s.accepted + (if e.Send? || e.Handoff? then [e.o] else [])
            && s'.dropped == s.dropped + (if e.Drop? then [e.o] else [])
  {
  }

  /** Every observation a run offers is either accepted or dropped. */
  lemma {:induction false} OfferedIsAcceptedOrDropped(s0: State, steps: seq<Step>)
    requires Exec(s0, steps).1 && s0.accepted == [] && s0.dropped == []
    ensures var s := Exec(s0, steps).0; multiset(Offered(steps)) == multiset(s.accepted) + multiset(s.dropped)
  {
    if steps != [] {
      OfferedIsAcceptedOrDropped(s0, steps[..|steps| - 1]);
      StepOffers(Exec(s0, steps[..|steps| - 1]).0, steps[|steps| - 1]);
    }
  }

  lemma {:induction false} ExecPrefix(s0: State, steps: seq<Step>, i: nat)
    requires Exec(s0, steps).1 && i < |steps|
    ensures Exec(s0, steps[..i]).1 && Enabled(Exec(s0, steps[..i]).0, steps[i])
    decreases |steps|
  {
    var rest := steps[..|steps| - 1];
    if i < |rest| {
      assert rest[..i] == steps[..i];
      ExecPrefix(s0, rest, i);
    }
  }

  /** And it is dropped only when as many observations as the channel can hold, the last
      ones accepted, are all still waiting for the flusher. */
  lemma DropsOnlyWhenFull(capacity: nat, batchSize: nat, steps: seq<Step>, i: nat)
    requires Exec(Init(capacity, batchSize), steps).1 && i < |steps| && steps[i].Drop?
    ensures var s := Exec(Init(capacity, batchSize), steps[..i]).0;
            var taken := |s.accepted| - capacity;
            taken >= 0 && s.queue == s.accepted[taken..] && Concat(s.flushed) + s.batch == s.accepted[..taken]
  {
    ExecPrefix(Init(capacity, batchSize), steps, i);
    Conservation(capacity, batchSize, steps[..i]);
  }

  /** Close is final: in no run after it is anything accepted or dropped. */
  lemma {:induction false} CloseIsFinal(s: State, steps: seq<Step>)
    requires Enabled(s, Close) && Exec(Next(s, Close), steps).1
    ensures var end := Exec(Next(s, Close), steps).0;
            end.closed && end.accepted == s.accepted && end.dropped == s.dropped
  {
    if steps != [] { CloseIsFinal(s, steps[..|steps| - 1]); }
  }

  /** After Close the flusher can always move until it has exited, and each of its moves
      other than a tick that flushes nothing brings the exit nearer. */
  lemma ShutdownMakesProgress(s: State)
    requires s.closed && !s.exited
    ensures Enabled(s, Receive) || Enabled(s, Finish)
    ensures forall e :: Enabled(s, e) && e != Tick ==>
              var s' := Next(s, e); s'.exited || |s'.queue| < |s.queue|
  {
  }

  // ---- The logger as a program with one reused buffer -----------------------------

  class BufferedLogger {
    const capacity: nat
    const batchSize: nat
    var ch: seq<Observation>
    var closed: bool
    var exited: bool
    const buffer: array<Observation>    // the batch is buffer[..len]
    var len: nat
    var flushed: seq<seq<Observation>>  // what the sink has been handed
    ghost var accepted: seq<Observation>
    ghost var dropped: seq<Observation>

    ghost function View(): State
      reads this, buffer
      requires len <= buffer.Length
    {
      State(capacity, batchSize, ch, closed, buffer[..len], exited, accepted, dropped, flushed)
    }

    ghost predicate Valid()
      reads this, buffer
    {
      && len <= buffer.Length
      && buffer.Length == (if batchSize == 0 then 1 else batchSize)
      && Inv(View())
    }

    constructor (capacity: nat, batchSize: nat)
      ensures Valid() && View() == Init(capacity, batchSize) && fresh(buffer)
    {
      this.capacity := capacity;
      this.batchSize := batchSize;
      ch, closed, exited, len, flushed, accepted, dropped := [], false, false, 0, [], [], [];
      buffer := new Observation[if batchSize == 0 then 1 else batchSize](_ => Observation("", false, 0));
    }

    /** `waiting` says whether the flusher is blocked at the channel, which matters only
        to an unbuffered one. */
    method LogObservation(o: Observation, waiting: bool)
      requires Valid() && !closed && !exited
      modifies this, buffer
      ensures Valid()
      ensures View() == Next(old(View()), if |old(ch)| < capacity then Send(o)
                                          else if capacity == 0 && waiting then Handoff(o) else Drop(o))
    {
      ghost var e := if |ch| < capacity then Send(o) else if capacity == 0 && waiting then Handoff(o) else Drop(o);
      NextInv(View(), e);
      if |ch| < capacity {
        ch := ch + [o];
        accepted := accepted + [o];
      } else if capacity == 0 && waiting {
        accepted := accepted + [o];
        AppendOne(o);
      } else {
        dropped := dropped + [o];
      }
    }

    /** Append to the buffer, which is handed over when full and then truncated, not
        reallocated. */
    method AppendOne(o: Observation)
      requires len < buffer.Length && buffer.Length == (if batchSize == 0 then 1 else batchSize)
      modifies `len, `flushed, buffer
      ensures len < buffer.Length && View() == Append(old(View()), o)
    {
      buffer[len] := o;
      len := len + 1;
      assert buffer[..len] == old(buffer[..len]) + [o];
      if len >= batchSize {
        flushed := flushed + [buffer[..len]];
        len := 0;
      }
    }

    method ReceiveOne()
      requires Valid() && ch != [] && !exited
      modifies this, buffer
      ensures Valid() && View() == Next(old(View()), Receive)
      ensures closed == old(closed) && !exited && accepted == old(accepted) && ch == old(ch)[1..]
    {
      NextInv(View(), Receive);
      var o := ch[0];
      ch := ch[1..];
      AppendOne(o);
    }

    method OnTick()
      requires Valid() && !exited
      modifies this
      ensures Valid() && View() == Next(old(View()), Tick)
      ensures closed == old(closed) && !exited && accepted == old(accepted) && ch == old(ch)
      ensures len == 0 && Concat(flushed) + ch == accepted
    {
      TickFlushesAll(View());
      NextInv(View(), Tick);
      if len > 0 {
        flushed := flushed + [buffer[..len]];
        len := 0;
      }
    }

    /** The flusher finds the channel closed and empty. */
    method FinishFlusher()
      requires Valid() && closed && ch == [] && !exited
      modifies this
      ensures Valid() && View() == Next(old(View()), Finish)
    {
      NextInv(View(), Finish);
      if len > 0 {
        flushed := flushed + [buffer[..len]];
        len := 0;
      }
      exited := true;
    }

    method CloseChannel()
      requires Valid() && !closed && !exited
      modifies this
      ensures Valid() && View() == Next(old(View()), Close)
    {
      NextInv(View(), Close);
      closed := true;
    }

    /** One turn of the flusher on a closed channel that still holds observations: it may
        tick first. */
    method Turn()
      requires Valid() && closed && !exited && ch != []
      modifies this, buffer
      ensures Valid() && closed && !exited && accepted == old(accepted) && |ch| < |old(ch)|
    {
      if * { OnTick(); }
      ReceiveOne();
    }

    method Drain()
      requires Valid() && closed && !exited
      modifies this, buffer
      ensures Valid() && closed && !exited && ch == [] && accepted == old(accepted)
    {
      while ch != []
        invariant Valid() && closed && !exited && accepted == old(accepted)
        decreases |ch|
      {
        Turn();
      }
    }

    /** Close the channel and wait for the flusher. When this returns, everything ever
        accepted has been handed over exactly once, in order. */
    method Shutdown()
      requires Valid() && !closed && !exited
      modifies this, buffer
      ensures Valid() && closed && exited
      ensures accepted == old(accepted) && Concat(flushed) == accepted
    {
      CloseChannel();
      Drain();
      FinishFlusher();
      assert Inv(View());
      assert Concat(flushed) + [] + [] == Concat(flushed);
    }
  }
}
