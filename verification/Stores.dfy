/** The shared world of the service: one Postgres table of servers and the two Redis
    structures that mirror it, the set `server:all_ids` and one hash per server. */
module Stores {

  datatype Option<+T> = None | Some(value: T)

  type Id = string

  /** A status text. The empty text, which is also what reading an absent hash field
      gives, is `Unrecognized("")`. */
  datatype Status = Online | Offline | Unrecognized(text: string)

  /** One row of management_schema.servers. */
  datatype Row = Row(name: string, ipv4: string, status: Status, failures: int)

  /** The hash server:info:<id>. Only the presence of the `ipv4` field is observable:
      an absent status reads as the empty text and an absent counter as 0. */
  datatype Hash = Hash(ipv4: Option<string>, status: Status, retryCount: int)

  datatype World = World(table: map<Id, Row>, ids: set<Id>, info: map<Id, Hash>)

  /** Everything the two stores hold about one server. */
  datatype Cell = Cell(hash: Option<Hash>, row: Option<Row>)

  function Lookup<T>(m: map<Id, T>, id: Id): Option<T> {
    if id in m then Some(m[id]) else None
  }

  function Store<T>(m: map<Id, T>, id: Id, v: Option<T>): map<Id, T> {
    match v
    case Some(x) => m[id := x]
    case None => m - {id}
  }

  function CellOf(w: World, id: Id): Cell {
    Cell(Lookup(w.info, id), Lookup(w.table, id))
  }

  /** The world with the contents of one server replaced; the id set is not touched. */
  function Put(w: World, id: Id, c: Cell): World {
    World(Store(w.table, id, c.row), w.ids, Store(w.info, id, c.hash))
  }

  ghost predicate Distinct<T>(s: seq<T>) {
    forall i, j :: 0 <= i < j < |s| ==> s[i] != s[j]
  }

  /** Two worlds with the same id set and the same contents for every id are equal. */
  lemma WorldExtensionality(a: World, b: World)
    requires a.ids == b.ids
    requires forall id :: CellOf(a, id) == CellOf(b, id)
    ensures a == b
  {
    forall id ensures Lookup(a.info, id) == Lookup(b.info, id) && Lookup(a.table, id) == Lookup(b.table, id) {
      assert CellOf(a, id) == CellOf(b, id);
    }
    assert forall id :: (id in a.info <==> Lookup(a.info, id).Some?) && (id in b.info <==> Lookup(b.info, id).Some?);
    assert forall id :: (id in a.table <==> Lookup(a.table, id).Some?) && (id in b.table <==> Lookup(b.table, id).Some?);
    assert a.info == b.info by {
      forall id | id in a.info ensures a.info[id] == b.info[id] {
        assert Lookup(a.info, id) == Lookup(b.info, id);
      }
    }
    assert a.table == b.table by {
      forall id | id in a.table ensures a.table[id] == b.table[id] {
        assert Lookup(a.table, id) == Lookup(b.table, id);
      }
    }
  }

  /** Replacing one server changes that server and no other. */
  lemma PutGet(w: World, id: Id, c: Cell)
    ensures CellOf(Put(w, id, c), id) == c
    ensures forall other :: other != id ==> CellOf(Put(w, id, c), other) == CellOf(w, other)
    ensures CellOf(w, id) == c ==> Put(w, id, c) == w
  {
    if CellOf(w, id) == c {
      WorldExtensionality(Put(w, id, c), w);
    }
  }

  /** The effective failure threshold: every configured integer below 1 acts as 1. */
  function Effective(threshold: int): (t: int)
    ensures t >= 1 && t >= threshold && (t == threshold || t == 1)
  {
    if threshold < 1 then 1 else threshold
  }
}
