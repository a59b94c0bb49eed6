/** The administrator operations on single servers as whole steps: the Postgres table
    with its unique indexes, and the mirroring writes to Redis. */
module Inventory {
  import opened Stores
  import opened Text

  type Table = map<Id, Row>

  datatype Error = NameExists | Ipv4Exists | ServerNotFound | RowNotFound | StoreError | DuplicateKey

  datatype Result<+T> = Ok(value: T) | Err(error: Error)

  /** Which store calls of one operation fail. A service without a cache behaves as one
      whose first Redis write fails. */
  datatype AdminFaults = AdminFaults(getId: bool, getName: bool, getIpv4: bool, write: bool, redis1: bool, redis2: bool)

  const NO_ADMIN_FAULTS := AdminFaults(false, false, false, false, false, false)

  /** Some server other than `except` holds the name (or the address). */
  predicate NameHeld(t: Table, name: string, except: Option<Id>) {
    exists id :: id in t && Some(id) != except && t[id].name == name
  }

  predicate Ipv4Held(t: Table, ipv4: string, except: Option<Id>) {
    exists id :: id in t && Some(id) != except && t[id].ipv4 == ipv4
  }

  /** INSERT under the primary key and the two unique indexes. */
  function Insert(t: Table, id: Id, row: Row): Option<Table> {
    if id in t || NameHeld(t, row.name, None) || Ipv4Held(t, row.ipv4, None) then None else Some(t[id := row])
  }

  /** UPDATE of one row under the unique indexes. */
  function Replace(t: Table, id: Id, row: Row): Option<Table> {
    if NameHeld(t, row.name, Some(id)) || Ipv4Held(t, row.ipv4, Some(id)) then None else Some(t[id := row])
  }

  ghost predicate UniqueTrimmed(t: Table) {
    && (forall a, b :: a in t && b in t && a != b ==> t[a].name != t[b].name && t[a].ipv4 != t[b].ipv4)
    && (forall a :: a in t ==> Trimmed(t[a].name) && Trimmed(t[a].ipv4))
  }

  lemma InsertKeepsUnique(t: Table, id: Id, row: Row)
    requires UniqueTrimmed(t) && id !in t && !NameHeld(t, row.name, None) && !Ipv4Held(t, row.ipv4, None)
    requires Trimmed(row.name) && Trimmed(row.ipv4)
    ensures UniqueTrimmed(t[id := row])
  {
  }

  /** The indexes admit a write exactly if names and addresses stay unique. */
  lemma IndexesAdmitIff(t: Table, id: Id, row: Row)
    requires UniqueTrimmed(t) && Trimmed(row.name) && Trimmed(row.ipv4)
    ensures Insert(t, id, row) == if id !in t && UniqueTrimmed(t[id := row]) then Some(t[id := row]) else None
    ensures id in t ==> Replace(t, id, row) == if UniqueTrimmed(t[id := row]) then Some(t[id := row]) else None
  {
    var t' := t[id := row];
    if NameHeld(t, row.name, Some(id)) {
      var x :| x in t && x != id && t[x].name == row.name;
      assert t'[x].name == t'[id].name;
    }
    if Ipv4Held(t, row.ipv4, Some(id)) {
      var x :| x in t && x != id && t[x].ipv4 == row.ipv4;
      assert t'[x].ipv4 == t'[id].ipv4;
    }
    assert id !in t ==> (NameHeld(t, row.name, None) <==> NameHeld(t, row.name, Some(id)));
    assert id !in t ==> (Ipv4Held(t, row.ipv4, None) <==> Ipv4Held(t, row.ipv4, Some(id)));
  }

  // ---- The table effect of each operation -----------------------------------------

  function CreateRow(t: Table, id: Id, name: string, ipv4: string, f: AdminFaults): Result<Table> {
    if f.getName then Err(StoreError)
    else if NameHeld(t, Trim(name), None) then Err(NameExists)
    else if f.getIpv4 then Err(StoreError)
    else if Ipv4Held(t, Trim(ipv4), None) then Err(Ipv4Exists)
    else if f.write then Err(StoreError)
    else match Insert(t, id, Row(Trim(name), Trim(ipv4), Online, 0))
      case Some(t') => Ok(t')
      case None => Err(DuplicateKey)
  }

  /** The second half of an update: `row` is what GetByID returned earlier, so its status
      and failures may be stale by now and are written back all the same. */
  function UpdateRow(t: Table, id: Id, row: Row, name: string, ipv4: string, f: AdminFaults): Result<Table> {
    if name != row.name && f.getName then Err(StoreError)
    else if name != row.name && NameHeld(t, Trim(name), Some(id)) then Err(NameExists)
    else if ipv4 != row.ipv4 && f.getIpv4 then Err(StoreError)
    else if ipv4 != row.ipv4 && Ipv4Held(t, Trim(ipv4), Some(id)) then Err(Ipv4Exists)
    else if f.write then Err(StoreError)
    else if id !in t then Err(RowNotFound)
    else match Replace(t, id, row.(name := Trim(name), ipv4 := Trim(ipv4)))
      case Some(t') => Ok(t')
      case None => Err(DuplicateKey)
  }

  // ---- Redis ----------------------------------------------------------------------

  function Upsert(w: World, id: Id, row: Row, f: AdminFaults): World {
    if f.redis1 then w
    else
      var w' := w.(info := w.info[id := Hash(Some(row.ipv4), row.status, row.failures)]);
      if f.redis2 then w' else w'.(ids := w'.ids + {id})
  }

  function Forget(w: World, id: Id, f: AdminFaults): World {
    if f.redis1 then w
    else
      var w' := w.(info := w.info - {id});
      if f.redis2 then w' else w'.(ids := w'.ids - {id})
  }

  // ---- Whole operations -----------------------------------------------------------

  function Create(w: World, id: Id, name: string, ipv4: string, f: AdminFaults): (World, Result<Id>) {
    match CreateRow(w.table, id, name, ipv4, f)
    case Err(e) => (w, Err(e))
    case Ok(t) => (Upsert(w.(table := t), id, Row(Trim(name), Trim(ipv4), Online, 0), f), Ok(id))
  }

  function Update(w: World, id: Id, name: string, ipv4: string, f: AdminFaults): (World, Result<Row>) {
    if f.getId then (w, Err(StoreError))
    else if id !in w.table then (w, Err(ServerNotFound))
    else match UpdateRow(w.table, id, w.table[id], name, ipv4, f)
      case Err(e) => (w, Err(e))
      case Ok(t) =>
        var row := w.table[id].(name := Trim(name), ipv4 := Trim(ipv4));
        (Upsert(w.(table := t), id, row, f), Ok(row))
  }

  function Delete(w: World, id: Id, f: AdminFaults): (World, Result<Id>) {
    if f.getId then (w, Err(StoreError))
    else if id !in w.table then (w, Err(ServerNotFound))
    else if f.write then (w, Err(StoreError))
    else (Forget(w.(table := w.table - {id}), id, f), Ok(id))
  }

  // ---- The unique indexes never reject a write ------------------------------------

  /** Whatever fails, a create keeps names and addresses unique and trimmed, leaves every
      other row alone, and its own checks always pre-empt the database's. */
  lemma CreateIsClean(w: World, id: Id, name: string, ipv4: string, f: AdminFaults)
    requires UniqueTrimmed(w.table) && id !in w.table
    ensures var (w', r) := Create(w, id, name, ipv4, f);
            && UniqueTrimmed(w'.table)
            && r != Err(DuplicateKey)
            && (r.Err? ==> w' == w)
            && (r.Ok? ==> w'.table == w.table[id := Row(Trim(name), Trim(ipv4), Online, 0)])
  {
    TrimTrims(name);
    TrimTrims(ipv4);
  }

  lemma UpdateRowIsClean(t: Table, id: Id, row: Row, name: string, ipv4: string, f: AdminFaults)
    requires UniqueTrimmed(t)
    requires id in t ==> row.name == t[id].name && row.ipv4 == t[id].ipv4
    ensures var r := UpdateRow(t, id, row, name, ipv4, f);
            && r != Err(DuplicateKey)
            && (r.Ok? ==> id in t && r.value == t[id := row.(name := Trim(name), ipv4 := Trim(ipv4))] && UniqueTrimmed(r.value))
  {
    TrimTrims(name);
    TrimTrims(ipv4);
  }

  lemma UpdateIsClean(w: World, id: Id, name: string, ipv4: string, f: AdminFaults)
    requires UniqueTrimmed(w.table)
    ensures var (w', r) := Update(w, id, name, ipv4, f);
            && UniqueTrimmed(w'.table)
            && r != Err(DuplicateKey)
            && (r.Err? ==> w' == w)
            && (r.Ok? ==> id in w.table && w'.table == w.table[id := r.value])
  {
    if id in w.table {
      UpdateRowIsClean(w.table, id, w.table[id], name, ipv4, f);
    }
  }

  lemma DeleteIsClean(w: World, id: Id, f: AdminFaults)
    requires UniqueTrimmed(w.table)
    ensures var (w', r) := Delete(w, id, f);
            && UniqueTrimmed(w'.table)
            && (r.Err? ==> w' == w)
            && (r.Ok? ==> w'.table == w.table - {id})
  {
  }

  // ---- What is answered -------------------------------------------------------------

  /** Another server than `id` has the name (or the address), in so many words. */
  ghost predicate OtherNamed(t: Table, id: Id, name: string) {
    exists x :: x in t && x != id && t[x].name == name
  }

  ghost predicate OtherAt(t: Table, id: Id, ipv4: string) {
    exists x :: x in t && x != id && t[x].ipv4 == ipv4
  }

  /** A create succeeds exactly if its name and address are free and no store call fails,
      and otherwise the answer says which was the first obstacle. */
  lemma CreateAnswers(w: World, id: Id, name: string, ipv4: string, f: AdminFaults)
    requires UniqueTrimmed(w.table) && id !in w.table
    ensures var r := Create(w, id, name, ipv4, f).1;
            var named, at := OtherNamed(w.table, id, Trim(name)), OtherAt(w.table, id, Trim(ipv4));
            && (r.Ok? <==> !named && !at && !f.getName && !f.getIpv4 && !f.write)
            && (r.Ok? ==> r.value == id)
            && (r == Err(NameExists) <==> named && !f.getName)
            && (r == Err(Ipv4Exists) <==> !named && at && !f.getName && !f.getIpv4)
            && (r.Err? ==> r.error in {NameExists, Ipv4Exists, StoreError})
  {
    CreateIsClean(w, id, name, ipv4, f);
    assert OtherNamed(w.table, id, Trim(name)) <==> NameHeld(w.table, Trim(name), None);
    assert OtherAt(w.table, id, Trim(ipv4)) <==> Ipv4Held(w.table, Trim(ipv4), None);
  }

  /** An update succeeds exactly if the server exists, no other has the name or the address
      and no store call it makes fails; the look-ups are made only for what changes. */
  lemma UpdateAnswers(w: World, id: Id, name: string, ipv4: string, f: AdminFaults)
    requires UniqueTrimmed(w.table)
    ensures var r := Update(w, id, name, ipv4, f).1;
            && (r == Err(ServerNotFound) <==> id !in w.table && !f.getId)
            && (id in w.table ==>
                  var named, at := OtherNamed(w.table, id, Trim(name)), OtherAt(w.table, id, Trim(ipv4));
                  var noName, noIpv4 := f.getName && name != w.table[id].name, f.getIpv4 && ipv4 != w.table[id].ipv4;
                  && (r.Ok? <==> !named && !at && !f.getId && !noName && !noIpv4 && !f.write)
                  && (r.Ok? ==> r.value == w.table[id].(name := Trim(name), ipv4 := Trim(ipv4)))
                  && (r == Err(NameExists) <==> named && !f.getId && !f.getName)
                  && (r == Err(Ipv4Exists) <==> !named && at && !f.getId && !noName && !f.getIpv4))
            && (r.Err? ==> r.error in {ServerNotFound, NameExists, Ipv4Exists, StoreError})
  {
    UpdateIsClean(w, id, name, ipv4, f);
    TrimTrims(name);
    TrimTrims(ipv4);
    assert OtherNamed(w.table, id, Trim(name)) <==> NameHeld(w.table, Trim(name), Some(id));
    assert OtherAt(w.table, id, Trim(ipv4)) <==> Ipv4Held(w.table, Trim(ipv4), Some(id));
  }

  /** A row that vanished after it was read is an error of its own. */
  lemma VanishedRowAnswers(t: Table, id: Id, row: Row, name: string, ipv4: string)
    requires id !in t
    ensures UpdateRow(t, id, row, name, ipv4, NO_ADMIN_FAULTS) ==
            Err(if name != row.name && OtherNamed(t, id, Trim(name)) then NameExists
                else if ipv4 != row.ipv4 && OtherAt(t, id, Trim(ipv4)) then Ipv4Exists
                else RowNotFound)
  {
    assert OtherNamed(t, id, Trim(name)) <==> NameHeld(t, Trim(name), Some(id));
    assert OtherAt(t, id, Trim(ipv4)) <==> Ipv4Held(t, Trim(ipv4), Some(id));
  }

  lemma DeleteAnswers(w: World, id: Id, f: AdminFaults)
    ensures var r := Delete(w, id, f).1;
            && (r.Ok? <==> id in w.table && !f.getId && !f.write) && (r.Ok? ==> r.value == id)
            && (r == Err(ServerNotFound) <==> id !in w.table && !f.getId)
            && (r.Err? ==> r.error in {ServerNotFound, StoreError})
  {
  }

  /** What the mirroring writes leave of every server when the first or the second fails:
      the hash is written before the listing, and each only if nothing failed before it. */
  lemma MirrorUnderFaults(w: World, id: Id, row: Row, f: AdminFaults, x: Id)
    ensures var u := Upsert(w, id, row, f);
            && u.table == w.table
            && Lookup(u.info, x) == (if x == id && !f.redis1 then Some(Hash(Some(row.ipv4), row.status, row.failures)) else Lookup(w.info, x))
            && (x in u.ids <==> x in w.ids || (x == id && !f.redis1 && !f.redis2))
    ensures var d := Forget(w, id, f);
            && d.table == w.table
            && Lookup(d.info, x) == (if x == id && !f.redis1 then None else Lookup(w.info, x))
            && (x in d.ids <==> x in w.ids && !(x == id && !f.redis1 && !f.redis2))
  {
  }
}
