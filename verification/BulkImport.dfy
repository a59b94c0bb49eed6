/** Importing a sheet of servers: the one-row-at-a-time meaning, and the pieces from
    which the batched program computes it. */
module BulkImport {
  import opened Stores
  import opened Text
  import opened Inventory

  /** What the foreign libraries answer: net.ParseIP(...).To4() != nil and strings.ToLower. */
  datatype Rules = Rules(isIPv4: string -> bool, lower: string -> string)

  datatype Columns = Columns(name: nat, ipv4: nat)

  datatype Candidate = Candidate(name: string, ipv4: string)

  datatype Kind = Blank | Malformed(name: string, ipv4: string) | Proper(c: Candidate)

  datatype Failure = Duplicate(name: string, ipv4: string) | InvalidFormat(name: string, ipv4: string)

  /** The text reported for a failed row. */
  function Render(f: Failure): string {
    f.name + " (" + f.ipv4 + ")" + if f.InvalidFormat? then " - Invalid Format" else ""
  }

  predicate IsNameTitle(rules: Rules, title: string) {
    Trim(rules.lower(title)) in ["server name", "server_name", "name"]
  }

  predicate IsIpv4Title(rules: Rules, title: string) {
    Trim(rules.lower(title)) in ["ipv4", "ip"]
  }

  function Field(cols: seq<string>, i: nat): string {
    if i < |cols| then Trim(cols[i]) else ""
  }

  function Classify(rules: Rules, at: Columns, cols: seq<string>): Kind {
    var name, ipv4 := Field(cols, at.name), Field(cols, at.ipv4);
    if name == "" && ipv4 == "" then Blank
    else if name == "" || ipv4 == "" || Utf8Length(name) > 255 || !rules.isIPv4(ipv4) then Malformed(name, ipv4)
    else Proper(Candidate(name, ipv4))
  }

  /** The data rows of a sheet, each as what the validation makes of it. */
  function Kinds(rules: Rules, at: Columns, rows: seq<seq<string>>): (ks: seq<Kind>)
    ensures |ks| == |rows| && forall i :: 0 <= i < |rows| ==> ks[i] == Classify(rules, at, rows[i])
  {
    seq(|rows|, i requires 0 <= i < |rows| => Classify(rules, at, rows[i]))
  }

  /** Names and addresses that reach the table are trimmed. */
  ghost predicate TrimmedKinds(ks: seq<Kind>) {
    forall i :: 0 <= i < |ks| && ks[i].Proper? ==> Trimmed(ks[i].c.name) && Trimmed(ks[i].c.ipv4)
  }

  lemma KindsAreTrimmed(rules: Rules, at: Columns, rows: seq<seq<string>>)
    ensures TrimmedKinds(Kinds(rules, at, rows))
  {
    forall i | 0 <= i < |rows|
      ensures var k := Classify(rules, at, rows[i]); k.Proper? ==> Trimmed(k.c.name) && Trimmed(k.c.ipv4)
    {
      if at.name < |rows[i]| { TrimTrims(rows[i][at.name]); }
      if at.ipv4 < |rows[i]| { TrimTrims(rows[i][at.ipv4]); }
    }
  }

  /** The cell of a column, trimmed; a row that ends before it has an empty one. */
  ghost predicate CellIs(cols: seq<string>, i: nat, text: string) {
    if i < |cols| then text == Trim(cols[i]) else text == ""
  }

  /** A name of at most 255 bytes and an IPv4 address, both present. */
  ghost predicate WellFormed(rules: Rules, name: string, ipv4: string) {
    name != "" && ipv4 != "" && Utf8Length(name) <= 255 && rules.isIPv4(ipv4)
  }

  /** What the validation answers, of the two cells of the row: skipped exactly if both are
      empty, a candidate exactly if they are well formed, and always with these two texts. */
  lemma ClassifyIff(rules: Rules, at: Columns, cols: seq<string>, name: string, ipv4: string)
    requires CellIs(cols, at.name, name) && CellIs(cols, at.ipv4, ipv4)
    ensures var k := Classify(rules, at, cols);
            && (k.Blank? <==> name == "" && ipv4 == "")
            && (k.Proper? <==> WellFormed(rules, name, ipv4))
            && (k.Proper? ==> k.c.name == name && k.c.ipv4 == ipv4)
            && (k.Malformed? ==> k.name == name && k.ipv4 == ipv4)
  {
  }

  ghost predicate RightlyClassified(rules: Rules, ks: seq<Kind>) {
    forall i :: 0 <= i < |ks| ==>
      && (ks[i].Proper? ==> WellFormed(rules, ks[i].c.name, ks[i].c.ipv4))
      && (ks[i].Malformed? ==> !WellFormed(rules, ks[i].name, ks[i].ipv4))
  }

  lemma KindsAreRight(rules: Rules, at: Columns, rows: seq<seq<string>>)
    ensures RightlyClassified(rules, Kinds(rules, at, rows))
  {
    forall i | 0 <= i < |rows|
      ensures var k := Kinds(rules, at, rows)[i];
              && (k.Proper? ==> WellFormed(rules, k.c.name, k.c.ipv4))
              && (k.Malformed? ==> !WellFormed(rules, k.name, k.ipv4))
    {
      ClassifyIff(rules, at, rows[i], Field(rows[i], at.name), Field(rows[i], at.ipv4));
    }
  }

  /** A failed row is reported as its name, its address in brackets, and a note exactly if
      it was malformed. */
  lemma RenderReads(f: Failure)
    ensures var s, n := Render(f), |f.name| + |f.ipv4| + 3;
            && |s| >= n && s[..n] == f.name + " (" + f.ipv4 + ")"
            && s[n..] == if f.InvalidFormat? then " - Invalid Format" else ""
  {
  }

  // ---- One row at a time ----------------------------------------------------------

  /** `next` counts the generated ids used so far; `created` lists the new servers and
      `failed` the rejected rows, both in the order of the decision. */
  datatype Progress = Progress(table: Table, next: nat, created: seq<(Id, Candidate)>, failed: seq<Failure>)

  function Start(t: Table): Progress { Progress(t, 0, [], []) }

  function NewRow(c: Candidate): Row { Row(c.name, c.ipv4, Online, 0) }

  predicate Taken(t: Table, c: Candidate) {
    NameHeld(t, c.name, None) || Ipv4Held(t, c.ipv4, None)
  }

  /** Accept the candidate unless the table, as it is now, holds its name or address. */
  function Accept(newId: nat -> Id, p: Progress, c: Candidate): Progress {
    if Taken(p.table, c) then p.(failed := p.failed + [Duplicate(c.name, c.ipv4)])
    else
      var id := newId(p.next);
      p.(table := p.table[id := NewRow(c)], next := p.next + 1, created := p.created + [(id, c)])
  }

  function ImportRow(newId: nat -> Id, p: Progress, k: Kind): Progress {
    match k
    case Blank => p
    case Malformed(name, ipv4) => p.(failed := p.failed + [InvalidFormat(name, ipv4)])
    case Proper(c) => Accept(newId, p, c)
  }

  function Sequential(newId: nat -> Id, t: Table, ks: seq<Kind>): Progress {
    if ks == [] then Start(t)
    else ImportRow(newId, Sequential(newId, t, ks[..|ks| - 1]), ks[|ks| - 1])
  }

  function NonBlank(ks: seq<Kind>): nat {
    if ks == [] then 0
    else NonBlank(ks[..|ks| - 1]) + (if ks[|ks| - 1].Blank? then 0 else 1)
  }

  /** Generated ids are pairwise different and not in the table. */
  ghost predicate Fresh(newId: nat -> Id, t: Table, from: nat) {
    && (forall i: nat, j: nat :: newId(i) == newId(j) ==> i == j)
    && (forall i: nat :: i >= from ==> newId(i) !in t)
  }

  lemma AcceptGrows(newId: nat -> Id, p: Progress, c: Candidate)
    requires Fresh(newId, p.table, p.next) && UniqueTrimmed(p.table) && Trimmed(c.name) && Trimmed(c.ipv4)
    ensures var q := Accept(newId, p, c);
            && Fresh(newId, q.table, q.next) && UniqueTrimmed(q.table)
            && |q.table| - |p.table| == |q.created| - |p.created|
            && (!Taken(p.table, c) ==> Insert(p.table, newId(p.next), NewRow(c)) == Some(q.table))
  {
    if !Taken(p.table, c) {
      var id := newId(p.next);
      InsertKeepsUnique(p.table, id, NewRow(c));
      assert Accept(newId, p, c).table.Keys == p.table.Keys + {id};
    }
  }

  /** After a decision the candidate is held, and whatever was held still is. */
  lemma AcceptHolds(newId: nat -> Id, p: Progress, c: Candidate, d: Candidate)
    requires newId(p.next) !in p.table
    ensures var q := Accept(newId, p, c); Taken(q.table, c) && (Taken(p.table, d) ==> Taken(q.table, d))
  {
    var q, id := Accept(newId, p, c), newId(p.next);
    if !Taken(p.table, c) {
      assert q.table[id].name == c.name;
      if Taken(p.table, d) {
        var x :| x in p.table && (p.table[x].name == d.name || p.table[x].ipv4 == d.ipv4);
        assert q.table[x] == p.table[x];
      }
    }
  }

  lemma {:induction false} FailuresCounted(newId: nat -> Id, t: Table, ks: seq<Kind>)
    ensures var p := Sequential(newId, t, ks); |p.created| + |p.failed| == NonBlank(ks)
  {
    if ks != [] { FailuresCounted(newId, t, ks[..|ks| - 1]); }
  }

  /** Accounting of the sequential import, for every sheet. */
  lemma {:induction false} SequentialAccounting(newId: nat -> Id, t: Table, ks: seq<Kind>)
    requires Fresh(newId, t, 0) && UniqueTrimmed(t) && TrimmedKinds(ks)
    ensures var p := Sequential(newId, t, ks);
            && Fresh(newId, p.table, p.next) && UniqueTrimmed(p.table)
            && |p.created| + |p.failed| == NonBlank(ks)
            && |p.table| == |t| + |p.created|
  {
    if ks != [] {
      var p := Sequential(newId, t, ks[..|ks| - 1]);
      SequentialAccounting(newId, t, ks[..|ks| - 1]);
      match ks[|ks| - 1] {
        case Proper(c) => AcceptGrows(newId, p, c);
        case _ =>
      }
    }
    FailuresCounted(newId, t, ks);
  }

  // ---- Every row is answered for -----------------------------------------------------

  /** The two cells of every row that is not blank, in order. */
  function Rows(ks: seq<Kind>): seq<Candidate> {
    if ks == [] then []
    else Rows(ks[..|ks| - 1]) + match ks[|ks| - 1]
      case Blank => []
      case Malformed(name, ipv4) => [Candidate(name, ipv4)]
      case Proper(c) => [c]
  }

  function CreatedRows(items: seq<(Id, Candidate)>): seq<Candidate> {
    if items == [] then [] else CreatedRows(items[..|items| - 1]) + [items[|items| - 1].1]
  }

  function FailedRows(fs: seq<Failure>): seq<Candidate> {
    if fs == [] then [] else FailedRows(fs[..|fs| - 1]) + [Candidate(fs[|fs| - 1].name, fs[|fs| - 1].ipv4)]
  }

  lemma CreatedRowsAppend(items: seq<(Id, Candidate)>, x: (Id, Candidate))
    ensures CreatedRows(items + [x]) == CreatedRows(items) + [x.1]
  {
    assert (items + [x])[..|items|] == items;
  }

  lemma FailedRowsAppend(fs: seq<Failure>, f: Failure)
    ensures FailedRows(fs + [f]) == FailedRows(fs) + [Candidate(f.name, f.ipv4)]
  {
    assert (fs + [f])[..|fs|] == fs;
  }

  ghost predicate Answered(rows: seq<Candidate>, p: Progress) {
    multiset(rows) == multiset(CreatedRows(p.created)) + multiset(FailedRows(p.failed))
  }

  lemma AcceptAnswers(newId: nat -> Id, rows: seq<Candidate>, p: Progress, c: Candidate)
    requires Answered(rows, p)
    ensures Answered(rows + [c], Accept(newId, p, c))
  {
    if Taken(p.table, c) {
      FailedRowsAppend(p.failed, Duplicate(c.name, c.ipv4));
    } else {
      CreatedRowsAppend(p.created, (newId(p.next), c));
    }
  }

  /** Every row that is not blank is answered for exactly once, as created or as failed, and
      with its own name and address. */
  lemma {:induction false} EveryRowIsAnswered(newId: nat -> Id, t: Table, ks: seq<Kind>)
    ensures Answered(Rows(ks), Sequential(newId, t, ks))
  {
    if ks != [] {
      var rest, p := Rows(ks[..|ks| - 1]), Sequential(newId, t, ks[..|ks| - 1]);
      EveryRowIsAnswered(newId, t, ks[..|ks| - 1]);
      match ks[|ks| - 1] {
        case Blank => assert Rows(ks) == rest;
        case Malformed(name, ipv4) =>
          FailedRowsAppend(p.failed, InvalidFormat(name, ipv4));
          assert Rows(ks) == rest + [Candidate(name, ipv4)];
        case Proper(c) =>
          AcceptAnswers(newId, rest, p, c);
          assert Rows(ks) == rest + [c];
      }
    }
  }

  /** The row is that of a candidate of the sheet, ONLINE and without failures. */
  ghost predicate RowOf(ks: seq<Kind>, row: Row) {
    exists i :: 0 <= i < |ks| && ks[i].Proper? && row == Row(ks[i].c.name, ks[i].c.ipv4, Online, 0)
  }

  /** Every row of the table is an old one, unchanged, or that of a candidate; and no old row
      is lost. */
  ghost predicate Extends(t: Table, ks: seq<Kind>, t': Table) {
    && (forall id :: id in t ==> id in t' && t'[id] == t[id])
    && (forall id :: id in t' && id !in t ==> RowOf(ks, t'[id]))
  }

  lemma RowOfLonger(ks: seq<Kind>, row: Row)
    requires ks != [] && RowOf(ks[..|ks| - 1], row)
    ensures RowOf(ks, row)
  {
    var rest := ks[..|ks| - 1];
    var i :| 0 <= i < |rest| && rest[i].Proper? && row == Row(rest[i].c.name, rest[i].c.ipv4, Online, 0);
    assert ks[i] == rest[i];
  }

  lemma AcceptExtends(newId: nat -> Id, t: Table, ks: seq<Kind>, p: Progress)
    requires ks != [] && ks[|ks| - 1].Proper? && Extends(t, ks, p.table) && newId(p.next) !in p.table
    ensures Extends(t, ks, Accept(newId, p, ks[|ks| - 1].c).table)
  {
    var c := ks[|ks| - 1].c;
    assert RowOf(ks, Row(c.name, c.ipv4, Online, 0));
  }

  lemma {:induction false} SequentialExtends(newId: nat -> Id, t: Table, ks: seq<Kind>)
    requires Fresh(newId, t, 0) && UniqueTrimmed(t) && TrimmedKinds(ks)
    ensures Extends(t, ks, Sequential(newId, t, ks).table)
  {
    if ks != [] {
      var rest := ks[..|ks| - 1];
      var p := Sequential(newId, t, rest);
      SequentialExtends(newId, t, rest);
      SequentialAccounting(newId, t, rest);
      assert Extends(t, ks, p.table) by {
        forall id | id in p.table && id !in t ensures RowOf(ks, p.table[id]) { RowOfLonger(ks, p.table[id]); }
      }
      if ks[|ks| - 1].Proper? { AcceptExtends(newId, t, ks, p); }
    }
  }

  // ---- Candidates first, malformed rows apart -------------------------------------

  function Candidates(ks: seq<Kind>): seq<Candidate> {
    if ks == [] then []
    else
      var k := ks[|ks| - 1];
      Candidates(ks[..|ks| - 1]) + if k.Proper? then [k.c] else []
  }

  function AcceptAll(newId: nat -> Id, p: Progress, cs: seq<Candidate>): Progress {
    if cs == [] then p else Accept(newId, AcceptAll(newId, p, cs[..|cs| - 1]), cs[|cs| - 1])
  }

  lemma {:induction false} AcceptAllConcat(newId: nat -> Id, p: Progress, a: seq<Candidate>, b: seq<Candidate>)
    ensures AcceptAll(newId, p, a + b) == AcceptAll(newId, AcceptAll(newId, p, a), b)
  {
    if b == [] {
      assert a + b == a;
    } else {
      assert (a + b)[..|a + b| - 1] == a + b[..|b| - 1];
      AcceptAllConcat(newId, p, a, b[..|b| - 1]);
    }
  }

  /** What was reported before a batch does not influence it. */
  lemma {:induction false} AcceptAllFrame(newId: nat -> Id, p: Progress, cs: seq<Candidate>)
    ensures var q, r := AcceptAll(newId, p, cs), AcceptAll(newId, p.(created := [], failed := []), cs);
            q == Progress(r.table, r.next, p.created + r.created, p.failed + r.failed)
  {
    if cs != [] {
      AcceptAllFrame(newId, p, cs[..|cs| - 1]);
    }
  }

  function Only(duplicates: bool, fs: seq<Failure>): seq<Failure> {
    if fs == [] then []
    else Only(duplicates, fs[..|fs| - 1]) + if fs[|fs| - 1].Duplicate? == duplicates then [fs[|fs| - 1]] else []
  }

  lemma {:induction false} OnlySplits(fs: seq<Failure>)
    ensures multiset(fs) == multiset(Only(true, fs)) + multiset(Only(false, fs))
  {
    if fs != [] {
      var rest, f := fs[..|fs| - 1], fs[|fs| - 1];
      OnlySplits(rest);
      assert fs == rest + [f];
      assert multiset(fs) == multiset(rest) + multiset([f]);
      if f.Duplicate? {
        assert Only(true, fs) == Only(true, rest) + [f] && Only(false, fs) == Only(false, rest);
        assert multiset(Only(true, fs)) == multiset(Only(true, rest)) + multiset([f]);
      } else {
        assert Only(false, fs) == Only(false, rest) + [f] && Only(true, fs) == Only(true, rest);
        assert multiset(Only(false, fs)) == multiset(Only(false, rest)) + multiset([f]);
      }
    }
  }

  lemma OnlyAppend(d: bool, a: seq<Failure>, f: Failure)
    ensures Only(d, a + [f]) == Only(d, a) + if f.Duplicate? == d then [f] else []
  {
    assert (a + [f])[..|a|] == a;
  }

  ghost predicate SameAcceptance(p: Progress, q: Progress) {
    p.table == q.table && p.next == q.next && p.created == q.created && Only(true, p.failed) == q.failed
  }

  lemma AcceptSame(newId: nat -> Id, p: Progress, q: Progress, c: Candidate)
    requires SameAcceptance(p, q)
    ensures SameAcceptance(Accept(newId, p, c), Accept(newId, q, c))
  {
    OnlyAppend(true, p.failed, Duplicate(c.name, c.ipv4));
  }

  /** The sequential import accepts what the candidates alone would be accepted as; the
      malformed rows in between do not matter to it. */
  lemma {:induction false} SequentialIsAcceptAll(newId: nat -> Id, t: Table, ks: seq<Kind>)
    ensures SameAcceptance(Sequential(newId, t, ks), AcceptAll(newId, Start(t), Candidates(ks)))
  {
    if ks != [] {
      var rest := ks[..|ks| - 1];
      SequentialIsAcceptAll(newId, t, rest);
      var p, cs := Sequential(newId, t, rest), Candidates(rest);
      match ks[|ks| - 1] {
        case Blank => assert Candidates(ks) == cs;
        case Malformed(name, ipv4) =>
          assert Candidates(ks) == cs;
          OnlyAppend(true, p.failed, InvalidFormat(name, ipv4));
        case Proper(c) =>
          assert Candidates(ks) == cs + [c];
          assert (cs + [c])[..|cs|] == cs;
          AcceptSame(newId, p, AcceptAll(newId, Start(t), cs), c);
      }
    }
  }

  // ---- The batched program --------------------------------------------------------

  /** The variables of the batched import: what the completed batches decided, with the
      malformed rows reported at once, the pending batch, how many batches are complete
      and how many rows they cover. */
  datatype Loop = Loop(decided: Progress, batch: seq<Candidate>, batches: nat, covered: nat)

  /** Decide the pending batch, `n` rows having been read. */
  function Flushed(newId: nat -> Id, l: Loop, n: nat): Loop {
    Loop(AcceptAll(newId, l.decided, l.batch), [], l.batches + 1, n)
  }

  function Read(newId: nat -> Id, size: nat, l: Loop, k: Kind, n: nat): Loop {
    match k
    case Blank => l
    case Malformed(name, ipv4) => l.(decided := l.decided.(failed := l.decided.failed + [InvalidFormat(name, ipv4)]))
    case Proper(c) =>
      var l' := l.(batch := l.batch + [c]);
      if |l'.batch| >= size then Flushed(newId, l', n) else l'
  }

  function Batched(newId: nat -> Id, size: nat, t: Table, ks: seq<Kind>): Loop {
    if ks == [] then Loop(Start(t), [], 0, 0)
    else Read(newId, size, Batched(newId, size, t, ks[..|ks| - 1]), ks[|ks| - 1], |ks|)
  }

  /** What the batched import has made of the sheet once its last batch is decided. */
  function BatchedResult(newId: nat -> Id, size: nat, t: Table, ks: seq<Kind>): Progress {
    Flushed(newId, Batched(newId, size, t, ks), |ks|).decided
  }

  /** The completed batches decide like the sequential import of the rows they cover; the
      other candidates are in the pending batch. */
  ghost predicate Shape(newId: nat -> Id, t: Table, ks: seq<Kind>, l: Loop) {
    && l.covered <= |ks|
    && Candidates(ks) == Candidates(ks[..l.covered]) + l.batch
    && SameAcceptance(l.decided, AcceptAll(newId, Start(t), Candidates(ks[..l.covered])))
  }

  lemma ShapeSkip(newId: nat -> Id, size: nat, t: Table, ks: seq<Kind>, l: Loop)
    requires ks != [] && Shape(newId, t, ks[..|ks| - 1], l) && !ks[|ks| - 1].Proper?
    ensures Shape(newId, t, ks, Read(newId, size, l, ks[|ks| - 1], |ks|))
  {
    var rest, k := ks[..|ks| - 1], ks[|ks| - 1];
    assert ks[..l.covered] == rest[..l.covered];
    assert Candidates(ks) == Candidates(rest);
    if k.Malformed? { OnlyAppend(true, l.decided.failed, InvalidFormat(k.name, k.ipv4)); }
  }

  lemma ShapeAdd(newId: nat -> Id, t: Table, ks: seq<Kind>, l: Loop, c: Candidate)
    requires ks != [] && Shape(newId, t, ks[..|ks| - 1], l) && ks[|ks| - 1] == Proper(c)
    ensures Shape(newId, t, ks, l.(batch := l.batch + [c]))
  {
    var rest := ks[..|ks| - 1];
    assert ks[..l.covered] == rest[..l.covered];
    assert Candidates(ks) == Candidates(rest) + [c];
  }

  lemma {:induction false} AcceptAllSame(newId: nat -> Id, p: Progress, q: Progress, b: seq<Candidate>)
    requires SameAcceptance(p, q)
    ensures SameAcceptance(AcceptAll(newId, p, b), AcceptAll(newId, q, b))
    ensures Only(false, AcceptAll(newId, p, b).failed) == Only(false, p.failed)
  {
    if b != [] {
      var p', c := AcceptAll(newId, p, b[..|b| - 1]), b[|b| - 1];
      AcceptAllSame(newId, p, q, b[..|b| - 1]);
      AcceptSame(newId, p', AcceptAll(newId, q, b[..|b| - 1]), c);
      OnlyAppend(false, p'.failed, Duplicate(c.name, c.ipv4));
    }
  }

  lemma FlushSame(newId: nat -> Id, p: Progress, a: seq<Candidate>, p0: Progress, b: seq<Candidate>)
    requires SameAcceptance(p, AcceptAll(newId, p0, a))
    ensures SameAcceptance(AcceptAll(newId, p, b), AcceptAll(newId, p0, a + b))
  {
    AcceptAllConcat(newId, p0, a, b);
    AcceptAllSame(newId, p, AcceptAll(newId, p0, a), b);
  }

  lemma ShapeFlush(newId: nat -> Id, t: Table, ks: seq<Kind>, l: Loop)
    requires Shape(newId, t, ks, l)
    ensures Shape(newId, t, ks, Flushed(newId, l, |ks|))
  {
    assert ks[..|ks|] == ks;
    assert Candidates(ks) + [] == Candidates(ks);
    FlushSame(newId, l.decided, Candidates(ks[..l.covered]), Start(t), l.batch);
  }

  lemma {:induction false} BatchedShape(newId: nat -> Id, size: nat, t: Table, ks: seq<Kind>)
    ensures Shape(newId, t, ks, Batched(newId, size, t, ks))
  {
    if ks == [] {
      assert ks[..0] == [];
    } else {
      var l, k := Batched(newId, size, t, ks[..|ks| - 1]), ks[|ks| - 1];
      BatchedShape(newId, size, t, ks[..|ks| - 1]);
      if k.Proper? {
        ShapeAdd(newId, t, ks, l, k.c);
        ShapeFlush(newId, t, ks, l.(batch := l.batch + [k.c]));
      } else {
        ShapeSkip(newId, size, t, ks, l);
      }
    }
  }

  lemma FullBatch(batches: nat, size: nat)
    ensures batches * size + size == (batches + 1) * size
  {
  }

  lemma {:induction false} BatchCounts(newId: nat -> Id, size: nat, t: Table, ks: seq<Kind>)
    requires size >= 1
    ensures var l := Batched(newId, size, t, ks);
            |l.batch| < size && |Candidates(ks)| == l.batches * size + |l.batch|
  {
    if ks != [] {
      var l, k := Batched(newId, size, t, ks[..|ks| - 1]), ks[|ks| - 1];
      BatchCounts(newId, size, t, ks[..|ks| - 1]);
      FullBatch(l.batches, size);
      assert |Candidates(ks)| == |Candidates(ks[..|ks| - 1])| + if k.Proper? then 1 else 0;
    }
  }

  /** The completed batches are full, and the pending one is not. */
  lemma BatchesAreFull(newId: nat -> Id, size: nat, t: Table, ks: seq<Kind>)
    requires size >= 1
    ensures var l := Batched(newId, size, t, ks);
            l.covered <= |ks| && |l.batch| < size && |Candidates(ks[..l.covered])| == l.batches * size
  {
    BatchedShape(newId, size, t, ks);
    BatchCounts(newId, size, t, ks);
  }

  lemma {:induction false} MalformedInOrder(newId: nat -> Id, size: nat, t: Table, ks: seq<Kind>)
    ensures Only(false, Batched(newId, size, t, ks).decided.failed) == Only(false, Sequential(newId, t, ks).failed)
  {
    if ks != [] {
      var rest := ks[..|ks| - 1];
      MalformedInOrder(newId, size, t, rest);
      BatchedShape(newId, size, t, rest);
      var l, p := Batched(newId, size, t, rest), Sequential(newId, t, rest);
      var covered := AcceptAll(newId, Start(t), Candidates(rest[..l.covered]));
      match ks[|ks| - 1] {
        case Blank =>
        case Malformed(name, ipv4) =>
          OnlyAppend(false, l.decided.failed, InvalidFormat(name, ipv4));
          OnlyAppend(false, p.failed, InvalidFormat(name, ipv4));
        case Proper(c) =>
          OnlyAppend(false, p.failed, Duplicate(c.name, c.ipv4));
          AcceptAllSame(newId, l.decided, covered, l.batch + [c]);
      }
    }
  }

  /** Batching is invisible in the table, in the created servers and their order, and in
      the order of the failures of each kind, for every batch size and every sheet. */
  lemma BatchedRefinesSequential(newId: nat -> Id, size: nat, t: Table, ks: seq<Kind>)
    ensures var q, p := BatchedResult(newId, size, t, ks), Sequential(newId, t, ks);
            && q.table == p.table && q.next == p.next && q.created == p.created
            && Only(true, q.failed) == Only(true, p.failed)
            && Only(false, q.failed) == Only(false, p.failed)
            && multiset(q.failed) == multiset(p.failed)
  {
    var l, q, p := Batched(newId, size, t, ks), BatchedResult(newId, size, t, ks), Sequential(newId, t, ks);
    BatchedShape(newId, size, t, ks);
    MalformedInOrder(newId, size, t, ks);
    var cs := Candidates(ks[..l.covered]);
    FlushSame(newId, l.decided, cs, Start(t), l.batch);
    AcceptAllSame(newId, l.decided, AcceptAll(newId, Start(t), cs), l.batch);
    SequentialIsAcceptAll(newId, t, ks);
    OnlySplits(q.failed);
    OnlySplits(p.failed);
  }

  /** The completed batches are themselves a sequential import. */
  lemma DecidedIsSequential(newId: nat -> Id, size: nat, t: Table, ks: seq<Kind>)
    ensures var l := Batched(newId, size, t, ks);
            && l.covered <= |ks|
            && l.decided.table == Sequential(newId, t, ks[..l.covered]).table
            && l.decided.created == Sequential(newId, t, ks[..l.covered]).created
  {
    BatchedShape(newId, size, t, ks);
    SequentialIsAcceptAll(newId, t, ks[..Batched(newId, size, t, ks).covered]);
  }

  // ---- The order of the failure list ----------------------------------------------

  /** The duplicates already sitting, undecided, in the pending batch. */
  function PendingDuplicates(newId: nat -> Id, l: Loop): seq<Failure> {
    AcceptAll(newId, l.decided.(created := [], failed := []), l.batch).failed
  }

  /** The number of the batch that the next candidate after these rows belongs to. */
  function BatchAfter(size: nat, ks: seq<Kind>): nat {
    |Candidates(ks)| / if size == 0 then 1 else size
  }

  /** Row i, before row j, is a candidate of the batch that row j falls into, and its name
      or address is held by the table as the rows before it leave it. */
  ghost predicate DuplicateBefore(newId: nat -> Id, size: nat, t: Table, ks: seq<Kind>, i: nat, j: nat)
    requires i < j <= |ks|
  {
    && ks[i].Proper?
    && BatchAfter(size, ks[..i]) == BatchAfter(size, ks[..j])
    && Taken(Sequential(newId, t, ks[..i]).table, ks[i].c)
  }

  /** No malformed row comes after a duplicate of its own batch. The condition is on the
      sheet and the table alone. */
  ghost predicate MalformedFirst(newId: nat -> Id, size: nat, t: Table, ks: seq<Kind>) {
    forall i: nat, j: nat :: i < j < |ks| && ks[j].Malformed? ==> !DuplicateBefore(newId, size, t, ks, i, j)
  }

  ghost predicate SomeDuplicate(newId: nat -> Id, size: nat, t: Table, ks: seq<Kind>) {
    exists i: nat :: i < |ks| && DuplicateBefore(newId, size, t, ks, i, |ks|)
  }

  lemma SamePrefixes(newId: nat -> Id, size: nat, t: Table, ks: seq<Kind>, n: nat, i: nat, j: nat)
    requires i < j <= n <= |ks|
    ensures DuplicateBefore(newId, size, t, ks[..n], i, j) <==> DuplicateBefore(newId, size, t, ks, i, j)
  {
    assert ks[..n][..i] == ks[..i] && ks[..n][..j] == ks[..j];
  }

  lemma MalformedFirstStep(newId: nat -> Id, size: nat, t: Table, ks: seq<Kind>)
    requires ks != []
    ensures var rest := ks[..|ks| - 1];
            MalformedFirst(newId, size, t, ks) <==>
            MalformedFirst(newId, size, t, rest) && (ks[|ks| - 1].Malformed? ==> !SomeDuplicate(newId, size, t, rest))
  {
    var n := |ks| - 1;
    forall i: nat, j: nat | i < j <= n
      ensures DuplicateBefore(newId, size, t, ks[..n], i, j) <==> DuplicateBefore(newId, size, t, ks, i, j)
    {
      SamePrefixes(newId, size, t, ks, n, i, j);
    }
  }

  lemma {:induction false} Multiples(m: nat, q: nat, q': nat)
    requires q < q'
    ensures m * q + m <= m * q'
  {
    assert m * (q' - 1) + m == m * q';
    if q < q' - 1 { Multiples(m, q, q' - 1); }
  }

  lemma SameQuotient(m: nat, q: nat, r: nat, q': nat, r': nat)
    requires r < m && r' < m && m * q + r == m * q' + r'
    ensures q == q' && r == r'
  {
    if q < q' {
      Multiples(m, q, q');
    } else if q' < q {
      Multiples(m, q', q);
    }
  }

  lemma Quotient(n: nat, m: nat, q: nat, r: nat)
    requires r < m && n == m * q + r
    ensures n / m == q && n % m == r
  {
    assert n == m * (n / m) + n % m;
    SameQuotient(m, q, r, n / m, n % m);
  }

  lemma BatchTurns(n: nat, m: nat)
    requires m >= 1
    ensures if n % m + 1 < m then (n + 1) / m == n / m && (n + 1) % m == n % m + 1
            else (n + 1) / m == n / m + 1 && (n + 1) % m == 0
  {
    var q, r := n / m, n % m;
    assert n == m * q + r;
    if r + 1 < m {
      Quotient(n + 1, m, q, r + 1);
    } else {
      assert n + 1 == m * (q + 1);
      Quotient(n + 1, m, q + 1, 0);
    }
  }

  /** The pending batch holds the candidates since the last multiple of the batch size. */
  lemma {:induction false} PendingCount(newId: nat -> Id, size: nat, t: Table, ks: seq<Kind>)
    ensures |Batched(newId, size, t, ks).batch| == |Candidates(ks)| % if size == 0 then 1 else size
  {
    if ks != [] {
      PendingCount(newId, size, t, ks[..|ks| - 1]);
      BatchTurns(|Candidates(ks[..|ks| - 1])|, if size == 0 then 1 else size);
    }
  }

  lemma {:induction false} BatchNumbersGrow(size: nat, ks: seq<Kind>, i: nat)
    requires i <= |ks|
    ensures BatchAfter(size, ks[..i]) <= BatchAfter(size, ks)
  {
    if i < |ks| {
      var rest := ks[..|ks| - 1];
      BatchNumbersGrow(size, rest, i);
      assert rest[..i] == ks[..i];
      BatchTurns(|Candidates(rest)|, if size == 0 then 1 else size);
    } else {
      assert ks[..i] == ks;
    }
  }

  lemma NextCandidate(size: nat, ks: seq<Kind>)
    requires ks != [] && ks[|ks| - 1].Proper?
    ensures var rest, m := ks[..|ks| - 1], if size == 0 then 1 else size;
            BatchAfter(size, ks) == BatchAfter(size, rest) + if |Candidates(rest)| % m + 1 < m then 0 else 1
  {
    var n := |Candidates(ks[..|ks| - 1])|;
    assert |Candidates(ks)| == n + 1;
    BatchTurns(n, if size == 0 then 1 else size);
  }

  /** One more candidate either joins the pending batch or completes it. */
  lemma JoinsOrCompletes(newId: nat -> Id, size: nat, t: Table, ks: seq<Kind>, c: Candidate)
    requires ks != [] && ks[|ks| - 1] == Proper(c)
    ensures var rest := ks[..|ks| - 1];
            var before, after := Batched(newId, size, t, rest), Batched(newId, size, t, ks);
            if BatchAfter(size, ks) == BatchAfter(size, rest)
            then after == before.(batch := before.batch + [c])
            else after.batch == [] && BatchAfter(size, ks) == BatchAfter(size, rest) + 1
  {
    PendingCount(newId, size, t, ks[..|ks| - 1]);
    NextCandidate(size, ks);
  }

  lemma PendingJoins(newId: nat -> Id, l: Loop, c: Candidate)
    ensures PendingDuplicates(newId, l.(batch := l.batch + [c])) == PendingDuplicates(newId, l)
              + if Taken(AcceptAll(newId, l.decided, l.batch).table, c) then [Duplicate(c.name, c.ipv4)] else []
  {
    assert (l.batch + [c])[..|l.batch|] == l.batch;
    AcceptAllFrame(newId, l.decided, l.batch);
  }

  lemma PendingStep(newId: nat -> Id, size: nat, t: Table, ks: seq<Kind>, c: Candidate)
    requires ks != [] && ks[|ks| - 1] == Proper(c)
    ensures var rest := ks[..|ks| - 1];
            var before, after := Batched(newId, size, t, rest), Batched(newId, size, t, ks);
            if BatchAfter(size, ks) == BatchAfter(size, rest)
            then PendingDuplicates(newId, after) == PendingDuplicates(newId, before)
                   + if Taken(Sequential(newId, t, rest).table, c) then [Duplicate(c.name, c.ipv4)] else []
            else PendingDuplicates(newId, after) == [] && BatchAfter(size, ks) == BatchAfter(size, rest) + 1
  {
    JoinsOrCompletes(newId, size, t, ks, c);
    PendingJoins(newId, Batched(newId, size, t, ks[..|ks| - 1]), c);
    BatchedRefinesSequential(newId, size, t, ks[..|ks| - 1]);
  }

  lemma SomeDuplicateStep(newId: nat -> Id, size: nat, t: Table, ks: seq<Kind>)
    requires ks != [] && ks[|ks| - 1].Proper?
    ensures var rest := ks[..|ks| - 1];
            SomeDuplicate(newId, size, t, ks) <==>
            && BatchAfter(size, ks) == BatchAfter(size, rest)
            && (SomeDuplicate(newId, size, t, rest) || Taken(Sequential(newId, t, rest).table, ks[|ks| - 1].c))
  {
    var n := |ks| - 1;
    var rest := ks[..n];
    assert ks[..|ks|] == ks && rest[..n] == rest;
    forall i: nat | i < n
      ensures BatchAfter(size, ks[..i]) <= BatchAfter(size, rest)
      ensures DuplicateBefore(newId, size, t, rest, i, n) && BatchAfter(size, ks) == BatchAfter(size, rest)
              <==> DuplicateBefore(newId, size, t, ks, i, |ks|)
    {
      assert rest[..i] == ks[..i];
      BatchNumbersGrow(size, rest, i);
      BatchNumbersGrow(size, ks, n);
    }
    if BatchAfter(size, ks) == BatchAfter(size, rest) && Taken(Sequential(newId, t, rest).table, ks[n].c) {
      assert DuplicateBefore(newId, size, t, ks, n, |ks|);
    }
  }

  lemma SomeDuplicateSkip(newId: nat -> Id, size: nat, t: Table, ks: seq<Kind>)
    requires ks != [] && !ks[|ks| - 1].Proper?
    ensures SomeDuplicate(newId, size, t, ks) <==> SomeDuplicate(newId, size, t, ks[..|ks| - 1])
  {
    var n := |ks| - 1;
    var rest := ks[..n];
    assert ks[..|ks|] == ks && rest[..n] == rest && BatchAfter(size, ks) == BatchAfter(size, rest);
    forall i: nat | i < n
      ensures DuplicateBefore(newId, size, t, rest, i, n) <==> DuplicateBefore(newId, size, t, ks, i, |ks|)
    {
      assert rest[..i] == ks[..i];
    }
  }

  /** A duplicate is waiting in the pending batch exactly if some earlier row is one. */
  lemma {:induction false} PendingIff(newId: nat -> Id, size: nat, t: Table, ks: seq<Kind>)
    ensures PendingDuplicates(newId, Batched(newId, size, t, ks)) != [] <==> SomeDuplicate(newId, size, t, ks)
  {
    if ks != [] {
      var rest, k := ks[..|ks| - 1], ks[|ks| - 1];
      PendingIff(newId, size, t, rest);
      if k.Proper? {
        PendingStep(newId, size, t, ks, k.c);
        SomeDuplicateStep(newId, size, t, ks);
      } else {
        SomeDuplicateSkip(newId, size, t, ks);
      }
    }
  }

  /** The list as it would read if the pending batch were decided now. */
  lemma ResultList(newId: nat -> Id, size: nat, t: Table, ks: seq<Kind>)
    ensures var l := Batched(newId, size, t, ks);
            BatchedResult(newId, size, t, ks).failed == l.decided.failed + PendingDuplicates(newId, l)
  {
    AcceptAllFrame(newId, Batched(newId, size, t, ks).decided, Batched(newId, size, t, ks).batch);
  }

  lemma MalformedListStep(newId: nat -> Id, size: nat, t: Table, ks: seq<Kind>)
    requires ks != [] && ks[|ks| - 1].Malformed?
    ensures var rest, k := ks[..|ks| - 1], ks[|ks| - 1];
            var l, x := Batched(newId, size, t, rest), InvalidFormat(k.name, k.ipv4);
            && BatchedResult(newId, size, t, rest).failed == l.decided.failed + PendingDuplicates(newId, l)
            && BatchedResult(newId, size, t, ks).failed == l.decided.failed + [x] + PendingDuplicates(newId, l)
            && Sequential(newId, t, ks).failed == Sequential(newId, t, rest).failed + [x]
            && Only(true, PendingDuplicates(newId, l)) == PendingDuplicates(newId, l)
  {
    var rest := ks[..|ks| - 1];
    var l := Batched(newId, size, t, rest);
    ResultList(newId, size, t, rest);
    ResultList(newId, size, t, ks);
    var p := l.decided.(created := [], failed := []);
    AcceptAllSame(newId, p, p, l.batch);
  }

  /** A proper row has the same effect whether or not it completes a batch. */
  lemma ProperResult(newId: nat -> Id, size: nat, t: Table, ks: seq<Kind>, c: Candidate)
    requires ks != [] && ks[|ks| - 1] == Proper(c)
    ensures BatchedResult(newId, size, t, ks) == Accept(newId, BatchedResult(newId, size, t, ks[..|ks| - 1]), c)
  {
    var l := Batched(newId, size, t, ks[..|ks| - 1]);
    assert (l.batch + [c])[..|l.batch|] == l.batch;
    assert AcceptAll(newId, l.decided, l.batch + [c]) == Accept(newId, AcceptAll(newId, l.decided, l.batch), c);
    var p := AcceptAll(newId, l.decided, l.batch + [c]);
    assert AcceptAll(newId, p, []) == p;
  }

  lemma ProperListStep(newId: nat -> Id, size: nat, t: Table, ks: seq<Kind>)
    requires ks != [] && ks[|ks| - 1].Proper?
    ensures var rest, c := ks[..|ks| - 1], ks[|ks| - 1].c;
            var news := if Taken(Sequential(newId, t, rest).table, c) then [Duplicate(c.name, c.ipv4)] else [];
            && BatchedResult(newId, size, t, ks).failed == BatchedResult(newId, size, t, rest).failed + news
            && Sequential(newId, t, ks).failed == Sequential(newId, t, rest).failed + news
  {
    BatchedRefinesSequential(newId, size, t, ks[..|ks| - 1]);
    ProperResult(newId, size, t, ks, ks[|ks| - 1].c);
  }

  ghost predicate InSheetOrder(newId: nat -> Id, size: nat, t: Table, ks: seq<Kind>) {
    BatchedResult(newId, size, t, ks).failed == Sequential(newId, t, ks).failed
  }

  lemma {:induction false} OnlyShorter(b: bool, d: seq<Failure>)
    ensures |Only(b, d)| <= |d|
  {
    if d != [] { OnlyShorter(b, d[..|d| - 1]); }
  }

  lemma OnlyLast(d: seq<Failure>)
    requires d != [] && Only(true, d) == d
    ensures d[|d| - 1].Duplicate?
  {
    OnlyShorter(true, d[..|d| - 1]);
  }

  /** Reporting x before the duplicates d instead of after them keeps the list only if
      there are none. */
  lemma InsertedBefore(a: seq<Failure>, x: Failure, d: seq<Failure>, p: seq<Failure>)
    requires x.InvalidFormat? && Only(true, d) == d
    ensures a + [x] + d == p + [x] <==> d == [] && a + d == p
  {
    if d == [] {
      assert a + [x] + d == a + [x] && a + d == a;
      assert |a| == |p| ==> (a + [x])[..|a|] == a && (p + [x])[..|p|] == p;
    } else {
      OnlyLast(d);
      var last := (a + [x] + d)[|a| + |d|];
      assert last == d[|d| - 1] && last.Duplicate?;
      assert |p| == |a| + |d| ==> (p + [x])[|a| + |d|] == x;
    }
  }

  lemma MalformedOrderStep(newId: nat -> Id, size: nat, t: Table, ks: seq<Kind>)
    requires ks != [] && ks[|ks| - 1].Malformed?
    ensures var rest := ks[..|ks| - 1];
            InSheetOrder(newId, size, t, ks) <==>
            InSheetOrder(newId, size, t, rest) && PendingDuplicates(newId, Batched(newId, size, t, rest)) == []
  {
    var rest, k := ks[..|ks| - 1], ks[|ks| - 1];
    var l := Batched(newId, size, t, rest);
    MalformedListStep(newId, size, t, ks);
    InsertedBefore(l.decided.failed, InvalidFormat(k.name, k.ipv4), PendingDuplicates(newId, l), Sequential(newId, t, rest).failed);
  }

  lemma ProperOrderStep(newId: nat -> Id, size: nat, t: Table, ks: seq<Kind>)
    requires ks != [] && ks[|ks| - 1].Proper?
    ensures InSheetOrder(newId, size, t, ks) <==> InSheetOrder(newId, size, t, ks[..|ks| - 1])
  {
    var rest, c := ks[..|ks| - 1], ks[|ks| - 1].c;
    ProperListStep(newId, size, t, ks);
    var news := if Taken(Sequential(newId, t, rest).table, c) then [Duplicate(c.name, c.ipv4)] else [];
    var a, b := BatchedResult(newId, size, t, rest).failed, Sequential(newId, t, rest).failed;
    assert |a| == |b| ==> (a + news)[..|a|] == a && (b + news)[..|b|] == b;
  }

  /** The list is in sheet order if and only if no malformed row follows a duplicate that
      is still waiting in the same batch: the malformed row is then reported first. */
  lemma {:induction false} FailureOrderIff(newId: nat -> Id, size: nat, t: Table, ks: seq<Kind>)
    ensures InSheetOrder(newId, size, t, ks) <==> MalformedFirst(newId, size, t, ks)
  {
    if ks != [] {
      var rest := ks[..|ks| - 1];
      FailureOrderIff(newId, size, t, rest);
      MalformedFirstStep(newId, size, t, ks);
      PendingIff(newId, size, t, rest);
      match ks[|ks| - 1] {
        case Blank =>
        case Proper(c) => ProperOrderStep(newId, size, t, ks);
        case Malformed(name, ipv4) => MalformedOrderStep(newId, size, t, ks);
      }
    }
  }

  /** A sheet on which the two lists differ, for every batch size but 1: a duplicate, then
      a malformed row. */
  lemma FailureOrderMayDiffer(newId: nat -> Id, size: nat, t: Table, dup: Kind, bad: Kind)
    requires size >= 2 && dup.Proper? && Taken(t, dup.c) && bad.Malformed?
    ensures !InSheetOrder(newId, size, t, [dup, bad])
  {
    var ks, none := [dup, bad], [];
    assert ks[..0] == none && ks[..1] == [dup] && [dup][..0] == none;
    assert |Candidates(none)| == 0 && |Candidates([dup])| == 1;
    assert DuplicateBefore(newId, size, t, ks, 0, 1);
    FailureOrderIff(newId, size, t, ks);
  }

  // ---- Importing the same sheet again ---------------------------------------------

  lemma RowHolds(newId: nat -> Id, p: Progress, k: Kind, d: Candidate)
    requires newId(p.next) !in p.table
    requires Taken(p.table, d) || k == Proper(d)
    ensures Taken(ImportRow(newId, p, k).table, d)
  {
    if k.Proper? { AcceptHolds(newId, p, k.c, d); }
  }

  lemma {:induction false} SequentialCovers(newId: nat -> Id, t: Table, ks: seq<Kind>, i: nat, c: Candidate)
    requires Fresh(newId, t, 0) && UniqueTrimmed(t) && TrimmedKinds(ks) && i < |ks| && ks[i] == Proper(c)
    ensures Taken(Sequential(newId, t, ks).table, c)
  {
    var rest := ks[..|ks| - 1];
    SequentialAccounting(newId, t, rest);
    if i < |rest| { SequentialCovers(newId, t, rest, i, c); }
    RowHolds(newId, Sequential(newId, t, rest), ks[|ks| - 1], c);
  }

  lemma {:induction false} CoveredRowsAddNothing(newId: nat -> Id, t: Table, ks: seq<Kind>)
    requires forall i :: 0 <= i < |ks| && ks[i].Proper? ==> Taken(t, ks[i].c)
    ensures var p := Sequential(newId, t, ks); p.table == t && p.created == []
  {
    if ks != [] {
      var rest := ks[..|ks| - 1];
      assert forall i :: 0 <= i < |rest| ==> rest[i] == ks[i];
      CoveredRowsAddNothing(newId, t, rest);
    }
  }

  /** A second import of the same sheet creates nothing and changes no row. */
  lemma ReimportAddsNothing(newId: nat -> Id, newId': nat -> Id, t: Table, ks: seq<Kind>)
    requires Fresh(newId, t, 0) && UniqueTrimmed(t) && TrimmedKinds(ks)
    ensures var t' := Sequential(newId, t, ks).table;
            var p := Sequential(newId', t', ks);
            p.table == t' && p.created == [] && |p.failed| == NonBlank(ks)
  {
    var t' := Sequential(newId, t, ks).table;
    forall i | 0 <= i < |ks| && ks[i].Proper? ensures Taken(t', ks[i].c) {
      SequentialCovers(newId, t, ks, i, ks[i].c);
    }
    CoveredRowsAddNothing(newId', t', ks);
    FailuresCounted(newId', t', ks);
  }
}
