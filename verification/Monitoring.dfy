/** The per-server state machine of the monitor: `Evaluate` reads and writes the Redis
    hash and then, only on some of its branches, the Postgres row. */
module Monitoring {
  import opened Stores

  /** Which of the store calls made on behalf of one server fail in this cycle. */
  datatype Faults = Faults(hget: bool, get: bool, set_: bool, db: bool)

  const NO_FAULTS := Faults(false, false, false, false)

  datatype Outcome = Done | StateError | StateNotFound | SetError | RowError

  /** What an evaluation decides to store, and whether Postgres is written at all. */
  datatype Verdict = Verdict(status: Status, retryCount: int, toPostgres: bool)

  function Current(h: Hash): Status {
    if h.status == Unrecognized("") then Online else h.status
  }

  function Decide(threshold: int, h: Hash, ping: bool): Verdict {
    var current, n := Current(h), h.retryCount + 1;
    if ping then
      if current.Offline? then Verdict(Online, 0, true) else Verdict(current, 0, false)
    else if current.Online? then
      if n >= threshold then Verdict(Offline, 0, true) else Verdict(Online, n, n > 0)
    else
      Verdict(current, n, false)
  }

  function SetState(c: Cell, status: Status, retryCount: int): Cell {
    var ipv4 := if c.hash.Some? then c.hash.value.ipv4 else None;
    c.(hash := Some(Hash(ipv4, status, retryCount)))
  }

  /** UPDATE ... WHERE server_id = id: no error and no effect when the row is gone. */
  function SetRow(c: Cell, status: Status, failures: int): Cell {
    if c.row.Some? then c.(row := Some(c.row.value.(status := status, failures := failures))) else c
  }

  function EvaluateCell(threshold: int, c: Cell, ping: bool, f: Faults): (Cell, Outcome) {
    if f.get then (c, StateError)
    else if c.hash.None? then (c, StateNotFound)
    else
      var v := Decide(threshold, c.hash.value, ping);
      if f.set_ then (c, SetError)
      else
        var c' := SetState(c, v.status, v.retryCount);
        if !v.toPostgres then (c', Done)
        else if f.db then (c', RowError)
        else (SetRow(c', v.status, v.retryCount), Done)
  }

  /** An address that is missing or empty, or that cannot be read, ends the job. */
  predicate NoAddress(c: Cell, f: Faults) {
    f.hget || c.hash.None? || c.hash.value.ipv4.None? || c.hash.value.ipv4.value == ""
  }

  /** One pool job: look up the address, ping it, evaluate. */
  function ProcessCell(threshold: int, c: Cell, ping: bool, f: Faults): Cell {
    if NoAddress(c, f) then c else EvaluateCell(threshold, c, ping, f).0
  }

  class MonitoringService {
    var world: World
    var observations: seq<(Id, bool)>
    const failureThreshold: int

    constructor (world: World, failureThreshold: int)
      ensures this.world == world && this.failureThreshold == failureThreshold && observations == []
    {
      this.world := world;
      this.failureThreshold := failureThreshold;
      observations := [];
    }

    method GetServerState(id: Id, fails: bool) returns (r: Option<Hash>, err: Outcome)
      ensures fails ==> r == None && err == StateError
      ensures !fails ==> r == CellOf(world, id).hash && err == if r.Some? then Done else StateNotFound
    {
      if fails { return None, StateError; }
      if id !in world.info { return None, StateNotFound; }
      return Some(world.info[id]), Done;
    }

    method SetServerState(id: Id, status: Status, retryCount: int, fails: bool) returns (ok: bool)
      modifies this`world
      ensures ok == !fails
      ensures world == if fails then old(world)
                       else Put(old(world), id, SetState(CellOf(old(world), id), status, retryCount))
    {
      if fails { return false; }
      var ipv4 := if id in world.info then world.info[id].ipv4 else None;
      PutGet(world, id, CellOf(world, id));
      world := world.(info := world.info[id := Hash(ipv4, status, retryCount)]);
      return true;
    }

    method UpdateServerStatus(id: Id, status: Status, failures: int, fails: bool) returns (ok: bool)
      modifies this`world
      ensures ok == !fails
      ensures world == if fails then old(world)
                       else Put(old(world), id, SetRow(CellOf(old(world), id), status, failures))
    {
      if fails { return false; }
      PutGet(world, id, CellOf(world, id));
      if id in world.table {
        world := world.(table := world.table[id := world.table[id].(status := status, failures := failures)]);
      }
      return true;
    }

    method Evaluate(id: Id, ping: bool, f: Faults) returns (err: Outcome)
      modifies this
      ensures var r := EvaluateCell(failureThreshold, CellOf(old(world), id), ping, f);
              world == Put(old(world), id, r.0) && err == r.1
      ensures observations == old(observations) + [(id, ping)]
    {
      observations := observations + [(id, ping)];
      PutGet(world, id, CellOf(world, id));
      var state, stateErr := GetServerState(id, f.get);
      if state.None? { return stateErr; }

      var currentStatus := state.value.status;
      if currentStatus == Unrecognized("") { currentStatus := Online; }
      var retryCount := state.value.retryCount;
      var newStatus := Unrecognized("");
      var statusChanged := false;

      if ping {
        if currentStatus == Offline {
          newStatus := Online;
          statusChanged := true;
          retryCount := 0;
        } else {
          retryCount := 0;
        }
      } else {
        if currentStatus == Online {
          retryCount := retryCount + 1;
          if retryCount >= failureThreshold {
            newStatus := Offline;
            statusChanged := true;
            retryCount := 0;
          }
        } else {
          retryCount := retryCount + 1;
        }
      }

      var ok;
      if statusChanged {
        ok := SetServerState(id, newStatus, retryCount, f.set_);
      } else {
        ok := SetServerState(id, currentStatus, retryCount, f.set_);
      }
      if !ok { return SetError; }
      PutGet(old(world), id, CellOf(world, id));

      if statusChanged {
        ok := UpdateServerStatus(id, newStatus, retryCount, f.db);
        if !ok { return RowError; }
      } else if retryCount > 0 && !ping && currentStatus == Online {
        ok := UpdateServerStatus(id, currentStatus, retryCount, f.db);
        if !ok { return RowError; }
      }
      return Done;
    }

    method ProcessServer(id: Id, ping: bool, f: Faults)
      modifies this
      ensures world == Put(old(world), id, ProcessCell(failureThreshold, CellOf(old(world), id), ping, f))
      ensures observations == old(observations) + if NoAddress(CellOf(old(world), id), f) then [] else [(id, ping)]
    {
      PutGet(world, id, CellOf(world, id));
      if f.hget || id !in world.info || world.info[id].ipv4.None? { return; }
      if world.info[id].ipv4.value == "" { return; }
      var _ := Evaluate(id, ping, f);
    }
  }
}
