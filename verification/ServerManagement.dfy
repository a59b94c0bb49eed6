/** The server service as a program over mutable stores, each operation proved against
    its meaning in Inventory and BulkImport. */
module ServerManagement {
  import opened Stores
  import opened Text
  import opened Inventory
  import opened BulkImport

  /** Which store calls of one import batch fail. Of the pipeline any commands may be
      lost: command 2i is the hash of the i-th new server, command 2i + 1 its listing. */
  datatype BatchFaults = BatchFaults(find: bool, create: bool, lost: set<nat>)

  datatype ImportError = EmptyFile | MissingColumns | BatchFailed

  datatype ImportResult =
    | Imported(successCount: nat, successful: seq<string>, failCount: nat, failed: seq<string>)
    | Rejected(error: ImportError)

  function InsertAll(t: Table, items: seq<(Id, Candidate)>): Option<Table> {
    if items == [] then Some(t)
    else match InsertAll(t, items[..|items| - 1])
      case None => None
      case Some(t') => Insert(t', items[|items| - 1].0, NewRow(items[|items| - 1].1))
  }

  function UpsertAll(w: World, items: seq<(Id, Candidate)>): World {
    if items == [] then w
    else Upsert(UpsertAll(w, items[..|items| - 1]), items[|items| - 1].0, NewRow(items[|items| - 1].1), NO_ADMIN_FAULTS)
  }

  /** The pipeline with some of its commands lost. */
  function Pipelined(w: World, items: seq<(Id, Candidate)>, lost: set<nat>): World {
    if items == [] then w
    else
      var i := |items| - 1;
      var before, (id, c) := Pipelined(w, items[..i], lost), items[i];
      var hashed := if 2 * i in lost then before else before.(info := before.info[id := Hash(Some(c.ipv4), Online, 0)]);
      if 2 * i + 1 in lost then hashed else hashed.(ids := hashed.ids + {id})
  }

  lemma {:induction false} NothingLost(w: World, items: seq<(Id, Candidate)>)
    ensures Pipelined(w, items, {}) == UpsertAll(w, items)
  {
    if items != [] { NothingLost(w, items[..|items| - 1]); }
  }

  /** A lossy pipeline leaves no wrong entry: what it listed or hashed is a server of the
      batch with its own address, and everything else, with the table, is as it was. */
  lemma {:induction false} PipelineIsSound(w: World, items: seq<(Id, Candidate)>, lost: set<nat>, id: Id)
    ensures var w' := Pipelined(w, items, lost);
            && w'.table == w.table
            && (id in w'.ids <==> id in w.ids || exists i :: 0 <= i < |items| && items[i].0 == id && 2 * i + 1 !in lost)
            && (Lookup(w'.info, id) == Lookup(w.info, id)
                || exists i :: 0 <= i < |items| && items[i].0 == id && 2 * i !in lost
                               && Lookup(w'.info, id) == Some(Hash(Some(items[i].1.ipv4), Online, 0)))
  {
    if items != [] {
      var n := |items| - 1;
      PipelineIsSound(w, items[..n], lost, id);
      assert forall i :: 0 <= i < n ==> items[..n][i] == items[i];
    }
  }

  lemma {:induction false} UpsertAllTable(w: World, items: seq<(Id, Candidate)>)
    ensures UpsertAll(w, items).table == w.table
  {
    if items != [] { UpsertAllTable(w, items[..|items| - 1]); }
  }

  function Names(items: seq<(Id, Candidate)>): seq<string> {
    seq(|items|, i requires 0 <= i < |items| => items[i].1.name)
  }

  function RenderAll(fs: seq<Failure>): seq<string> {
    seq(|fs|, i requires 0 <= i < |fs| => Render(fs[i]))
  }

  /** The last column whose title satisfies p, or -1. */
  function LastTitle(header: seq<string>, p: string -> bool): int {
    if header == [] then -1
    else if p(header[|header| - 1]) then |header| - 1
    else LastTitle(header[..|header| - 1], p)
  }

  /** The i-th title, in lower case and trimmed, names the column of names (of addresses). */
  ghost predicate NamesColumn(rules: Rules, header: seq<string>, i: int) {
    0 <= i < |header| && var h := Trim(rules.lower(header[i])); h == "server name" || h == "server_name" || h == "name"
  }

  ghost predicate AddressColumn(rules: Rules, header: seq<string>, i: int) {
    0 <= i < |header| && var h := Trim(rules.lower(header[i])); h == "ipv4" || h == "ip"
  }

  /** Both required columns, if the header names them. */
  function HeaderOf(rules: Rules, header: seq<string>): Option<Columns> {
    var n, a := LastTitle(header, t => IsNameTitle(rules, t)), LastTitle(header, t => IsIpv4Title(rules, t));
    if n < 0 || a < 0 then None else Some(Columns(n, a))
  }

  lemma {:induction false} LastTitleRange(header: seq<string>, p: string -> bool)
    ensures -1 <= LastTitle(header, p) < |header|
  {
    if header != [] { LastTitleRange(header[..|header| - 1], p); }
  }

  lemma {:induction false} LastTitleIs(header: seq<string>, p: string -> bool)
    ensures var k := LastTitle(header, p);
            && (k == -1 <==> forall i :: 0 <= i < |header| ==> !p(header[i]))
            && -1 <= k < |header|
            && (k >= 0 ==> p(header[k]) && forall i :: k < i < |header| ==> !p(header[i]))
  {
    if header != [] { LastTitleIs(header[..|header| - 1], p); }
  }

  /** The header is good exactly if it names both columns, and the last of each counts. */
  lemma HeaderOfIff(rules: Rules, header: seq<string>)
    ensures var at := HeaderOf(rules, header);
            && (at.Some? <==> (exists i :: NamesColumn(rules, header, i)) && (exists i :: AddressColumn(rules, header, i)))
            && (at.Some? ==>
                  && NamesColumn(rules, header, at.value.name) && (forall i :: NamesColumn(rules, header, i) ==> i <= at.value.name)
                  && AddressColumn(rules, header, at.value.ipv4) && (forall i :: AddressColumn(rules, header, i) ==> i <= at.value.ipv4))
  {
    LastTitleIs(header, t => IsNameTitle(rules, t));
    LastTitleIs(header, t => IsIpv4Title(rules, t));
    assert forall i :: 0 <= i < |header| ==> (NamesColumn(rules, header, i) <==> IsNameTitle(rules, header[i]));
    assert forall i :: 0 <= i < |header| ==> (AddressColumn(rules, header, i) <==> IsIpv4Title(rules, header[i]));
  }

  lemma HeldAfterInsert(t: Table, id: Id, c: Candidate)
    requires id !in t
    ensures var t' := t[id := NewRow(c)];
            && (forall n :: NameHeld(t', n, None) <==> NameHeld(t, n, None) || n == c.name)
            && (forall a :: Ipv4Held(t', a, None) <==> Ipv4Held(t, a, None) || a == c.ipv4)
  {
    var t' := t[id := NewRow(c)];
    assert t'[id] == NewRow(c);
    forall n ensures NameHeld(t', n, None) <==> NameHeld(t, n, None) || n == c.name {
      if NameHeld(t, n, None) {
        var x :| x in t && t[x].name == n;
        assert t'[x].name == n;
      }
    }
    forall a ensures Ipv4Held(t', a, None) <==> Ipv4Held(t, a, None) || a == c.ipv4 {
      if Ipv4Held(t, a, None) {
        var x :| x in t && t[x].ipv4 == a;
        assert t'[x].ipv4 == a;
      }
    }
  }

  /** The look-up sets of a batch answer, for its members, whether the table holds them. */
  ghost predicate Answers(t: Table, batch: seq<Candidate>, names: set<string>, ips: set<string>) {
    forall c :: c in batch ==> (c.name in names <==> NameHeld(t, c.name, None)) && (c.ipv4 in ips <==> Ipv4Held(t, c.ipv4, None))
  }

  lemma AnswersAfterInsert(t: Table, batch: seq<Candidate>, names: set<string>, ips: set<string>, id: Id, c: Candidate)
    requires Answers(t, batch, names, ips) && id !in t
    ensures Answers(t[id := NewRow(c)], batch, names + {c.name}, ips + {c.ipv4})
  {
    HeldAfterInsert(t, id, c);
  }

  /** The variables of the filter after deciding some candidates as `a` says. */
  ghost predicate Filtered(t: Table, batch: seq<Candidate>, a: Progress, used: nat, valid: seq<(Id, Candidate)>, duplicates: seq<Failure>, names: set<string>, ips: set<string>) {
    && valid == a.created && duplicates == a.failed && a.next == used + |valid|
    && InsertAll(t, valid) == Some(a.table)
    && Answers(a.table, batch, names, ips)
  }

  lemma FilterStep(newId: nat -> Id, t: Table, batch: seq<Candidate>, a: Progress, used: nat, valid: seq<(Id, Candidate)>, duplicates: seq<Failure>, names: set<string>, ips: set<string>, c: Candidate)
    requires Filtered(t, batch, a, used, valid, duplicates, names, ips) && c in batch
    requires Fresh(newId, a.table, a.next) && UniqueTrimmed(a.table) && Trimmed(c.name) && Trimmed(c.ipv4)
    ensures var a' := Accept(newId, a, c);
            if c.name in names || c.ipv4 in ips
            then Filtered(t, batch, a', used, valid, duplicates + [Duplicate(c.name, c.ipv4)], names, ips)
            else Filtered(t, batch, a', used, valid + [(newId(a.next), c)], duplicates, names + {c.name}, ips + {c.ipv4})
  {
    AcceptGrows(newId, a, c);
    var id := newId(a.next);
    assert (c.name in names || c.ipv4 in ips) <==> Taken(a.table, c);
    if !Taken(a.table, c) {
      assert (valid + [(id, c)])[..|valid|] == valid;
      AnswersAfterInsert(a.table, batch, names, ips, id, c);
    }
  }

  ghost predicate AllTrimmed(cs: seq<Candidate>) {
    forall c :: c in cs ==> Trimmed(c.name) && Trimmed(c.ipv4)
  }

  lemma {:induction false} AcceptAllSound(newId: nat -> Id, p: Progress, cs: seq<Candidate>)
    requires Fresh(newId, p.table, p.next) && UniqueTrimmed(p.table) && AllTrimmed(cs)
    ensures var q := AcceptAll(newId, p, cs); Fresh(newId, q.table, q.next) && UniqueTrimmed(q.table)
  {
    if cs != [] {
      AcceptAllSound(newId, p, cs[..|cs| - 1]);
      AcceptGrows(newId, AcceptAll(newId, p, cs[..|cs| - 1]), cs[|cs| - 1]);
    }
  }

  lemma {:induction false} CandidatesTrimmed(ks: seq<Kind>)
    requires TrimmedKinds(ks)
    ensures AllTrimmed(Candidates(ks))
  {
    if ks != [] { CandidatesTrimmed(ks[..|ks| - 1]); }
  }

  // ---- The import loop, on values -------------------------------------------------

  /** What is fixed during one import, with the data rows as the validation sees them. */
  datatype Job = Job(newId: nat -> Id, ks: seq<Kind>, faults: nat -> BatchFaults, batchSize: nat)

  /** The variables of the import: its result so far, the pending batch, and how many
      batches have been decided. */
  datatype Tally = Tally(created: seq<(Id, Candidate)>, failed: seq<Failure>, batch: seq<Candidate>, batches: nat)

  function AsProgress(t: Table, y: Tally): Progress {
    Progress(t, |y.created|, y.created, y.failed)
  }

  function AsLoop(t: Table, y: Tally, covered: nat): Loop {
    Loop(AsProgress(t, y), y.batch, y.batches, covered)
  }

  ghost predicate NoRedisFaults(job: Job) {
    forall b :: job.faults(b).lost == {}
  }

  /** Deciding the pending batch fails: its look-up does, or the insertion of the rows it
      accepts, if there are any. */
  ghost predicate Fails(job: Job, l: Loop) {
    var f := job.faults(l.batches);
    l.batch != [] && (f.find || (f.create && AcceptAll(job.newId, l.decided.(created := [], failed := []), l.batch).created != []))
  }

  /** The batch that is decided at row i, if that row completes one, or after the last. */
  function Due(job: Job, t0: Table, i: nat): Option<Loop>
    requires i <= |job.ks|
  {
    var l := Batched(job.newId, job.batchSize, t0, job.ks[..i]);
    if i == |job.ks| then Some(l)
    else if job.ks[i].Proper? && |l.batch| + 1 >= job.batchSize then Some(l.(batch := l.batch + [job.ks[i].c]))
    else None
  }

  ghost predicate FailsAt(job: Job, t0: Table, i: nat)
    requires i <= |job.ks|
  {
    Due(job, t0, i).Some? && Fails(job, Due(job, t0, i).value)
  }

  /** The stores are those of the sequential import of the first m rows, which hold exactly
      the candidates of b full batches. */
  ghost predicate StoppedAfter(job: Job, w0: World, w: World, m: nat, b: nat) {
    && m <= |job.ks|
    && |Candidates(job.ks[..m])| == b * job.batchSize
    && var p := Sequential(job.newId, w0.table, job.ks[..m]);
       w.table == p.table && (NoRedisFaults(job) ==> w == UpsertAll(w0.(table := p.table), p.created))
  }

  /** The import stopped at row i: that is the first batch whose store calls fail, and all
      before it have taken effect. */
  ghost predicate StoppedAt(job: Job, w0: World, w: World, i: nat)
    requires i <= |job.ks|
  {
    && FailsAt(job, w0.table, i) && (forall j: nat :: j < i ==> !FailsAt(job, w0.table, j))
    && var l := Batched(job.newId, job.batchSize, w0.table, job.ks[..i]);
       StoppedAfter(job, w0, w, l.covered, l.batches)
  }

  /** Before any batch is decided the table is untouched and all candidates are pending. */
  ghost predicate Undecided(job: Job, t0: Table, i: nat)
    requires i <= |job.ks|
  {
    var l := Batched(job.newId, job.batchSize, t0, job.ks[..i]);
    l.batches == 0 && l.batch == Candidates(job.ks[..i]) && l.decided.table == t0 && l.decided.next == 0
  }

  lemma {:induction false} CandidatesPrefix(ks: seq<Kind>, n: nat)
    requires n <= |ks|
    ensures Candidates(ks[..n]) <= Candidates(ks)
  {
    if n < |ks| {
      CandidatesPrefix(ks[..|ks| - 1], n);
      assert ks[..|ks| - 1][..n] == ks[..n];
    } else {
      assert ks[..n] == ks;
    }
  }

  /** A row that completes no batch leaves everything undecided. */
  lemma StillUndecided(job: Job, t0: Table, i: nat)
    requires job.batchSize >= 1 && i < |job.ks| && Undecided(job, t0, i)
    ensures if Due(job, t0, i).Some? then Due(job, t0, i).value.batch == Candidates(job.ks[..i + 1])
            else Undecided(job, t0, i + 1)
  {
    assert job.ks[..i + 1][..i] == job.ks[..i];
  }

  lemma {:induction false} FirstDue(job: Job, t0: Table, n: nat) returns (i: nat)
    requires job.batchSize >= 1 && n <= |job.ks|
    ensures i <= n && Undecided(job, t0, i) && (i < n ==> Due(job, t0, i).Some?)
  {
    if n == 0 {
      assert job.ks[..0] == [];
      return 0;
    }
    i := FirstDue(job, t0, n - 1);
    if i == n - 1 && Due(job, t0, i).None? {
      StillUndecided(job, t0, i);
      i := n;
    }
  }

  lemma {:induction false} FirstIsCreated(newId: nat -> Id, p: Progress, cs: seq<Candidate>)
    requires cs != [] && !Taken(p.table, cs[0])
    ensures AcceptAll(newId, p, cs).created != []
  {
    if |cs| > 1 {
      FirstIsCreated(newId, p, cs[..|cs| - 1]);
    } else {
      assert cs[..0] == [] && AcceptAll(newId, p, []) == p;
    }
  }

  /** A first batch whose look-up fails stops the import, as does one whose insertion fails
      with a new server in it. */
  lemma FirstFaultStops(job: Job, t0: Table)
    requires job.batchSize >= 1 && Candidates(job.ks) != []
    requires job.faults(0).find || (job.faults(0).create && !Taken(t0, Candidates(job.ks)[0]))
    ensures exists i: nat :: i <= |job.ks| && FailsAt(job, t0, i)
  {
    var i := FirstDue(job, t0, |job.ks|);
    var l := Due(job, t0, i).value;
    if i < |job.ks| {
      StillUndecided(job, t0, i);
      CandidatesPrefix(job.ks, i + 1);
    } else {
      assert job.ks[..i] == job.ks;
    }
    assert l.batch != [] && l.batch <= Candidates(job.ks);
    if job.faults(0).create && !Taken(t0, Candidates(job.ks)[0]) {
      FirstIsCreated(job.newId, Start(t0), l.batch);
    }
    assert l.decided.(created := [], failed := []) == Start(t0);
    assert FailsAt(job, t0, i);
  }

  ghost predicate StoppedAtFault(job: Job, w0: World, w: World) {
    exists i: nat :: i <= |job.ks| && StoppedAt(job, w0, w, i)
  }

  lemma BatchIsTrimmed(newId: nat -> Id, size: nat, t: Table, ks: seq<Kind>)
    requires TrimmedKinds(ks)
    ensures AllTrimmed(Batched(newId, size, t, ks).batch)
  {
    BatchedShape(newId, size, t, ks);
    CandidatesTrimmed(ks);
  }

  lemma {:induction false} AcceptAllCount(newId: nat -> Id, p: Progress, cs: seq<Candidate>)
    ensures var q := AcceptAll(newId, p, cs); |q.created| - |p.created| == q.next - p.next
  {
    if cs != [] { AcceptAllCount(newId, p, cs[..|cs| - 1]); }
  }

  /** Deciding the pending batch, on values. */
  lemma FlushMeaning(job: Job, t: Table, y: Tally, m: nat, n: nat)
    requires Fresh(job.newId, t, |y.created|) && UniqueTrimmed(t) && AllTrimmed(y.batch)
    ensures var a := AcceptAll(job.newId, Progress(t, |y.created|, [], []), y.batch);
            var z := Tally(y.created + a.created, y.failed + a.failed, [], y.batches + 1);
            && Fresh(job.newId, a.table, |z.created|)
            && AsLoop(a.table, z, n) == Flushed(job.newId, AsLoop(t, y, m), n)
  {
    var l := AsLoop(t, y, m);
    AcceptAllFrame(job.newId, l.decided, y.batch);
    AcceptAllSound(job.newId, l.decided, y.batch);
    AcceptAllCount(job.newId, l.decided, y.batch);
  }

  // ---- Mirroring over several batches ---------------------------------------------

  lemma {:induction false} UpsertAllRetable(w: World, items: seq<(Id, Candidate)>, t: Table)
    ensures UpsertAll(w, items).(table := t) == UpsertAll(w.(table := t), items)
  {
    if items != [] { UpsertAllRetable(w, items[..|items| - 1], t); }
  }

  /** Redis after two batches is Redis after both lists, whatever the table does. */
  lemma {:induction false} UpsertAllConcat(w0: World, a: seq<(Id, Candidate)>, w1: World, b: seq<(Id, Candidate)>, t: Table)
    ensures w1 == UpsertAll(w0.(table := w1.table), a)
            ==> UpsertAll(w1.(table := t), b) == UpsertAll(w0.(table := t), a + b)
  {
    if b == [] {
      assert a + b == a;
      UpsertAllRetable(w0.(table := w1.table), a, t);
    } else {
      UpsertAllConcat(w0, a, w1, b[..|b| - 1], t);
      assert (a + b)[..|a + b| - 1] == a + b[..|b| - 1];
    }
  }

  /** Between two moments of the import, Redis has received exactly the servers created
      in between. */
  ghost predicate Mirrors(w: World, a: seq<(Id, Candidate)>, w': World, b: seq<(Id, Candidate)>) {
    && a <= b
    && w' == UpsertAll(w.(table := w'.table), b[|a|..])
  }

  lemma MirrorsItself(w: World, a: seq<(Id, Candidate)>)
    ensures Mirrors(w, a, w, a)
  {
  }

  lemma MirrorsCompose(w0: World, w: World, a: seq<(Id, Candidate)>, w': World, b: seq<(Id, Candidate)>)
    ensures w == UpsertAll(w0.(table := w.table), a) && Mirrors(w, a, w', b)
            ==> w' == UpsertAll(w0.(table := w'.table), b)
  {
    if Mirrors(w, a, w', b) {
      UpsertAllConcat(w0, a, w, b[|a|..], w'.table);
      assert a + b[|a|..] == b;
    }
  }

  /** The stores and the variables of the import after the first i rows, of which the
      completed batches cover n. */
  ghost predicate CaughtUp(job: Job, w0: World, w: World, y: Tally, n: nat, i: nat) {
    && i <= |job.ks| && Fresh(job.newId, w.table, |y.created|)
    && AsLoop(w.table, y, n) == Batched(job.newId, job.batchSize, w0.table, job.ks[..i])
    && (NoRedisFaults(job) ==> w == UpsertAll(w0.(table := w.table), y.created))
    && forall j: nat :: j < i ==> !FailsAt(job, w0.table, j)
  }

  lemma StoppedHere(job: Job, w0: World, w: World, y: Tally, n: nat, i: nat)
    requires CaughtUp(job, w0, w, y, n, i) && job.batchSize >= 1 && FailsAt(job, w0.table, i)
    ensures StoppedAt(job, w0, w, i)
  {
    var l, ks := Batched(job.newId, job.batchSize, w0.table, job.ks[..i]), job.ks[..i];
    BatchesAreFull(job.newId, job.batchSize, w0.table, ks);
    DecidedIsSequential(job.newId, job.batchSize, w0.table, ks);
    assert ks[..l.covered] == job.ks[..l.covered];
  }

  lemma StillCaughtUp(job: Job, w0: World, w: World, y: Tally, n: nat, w': World, z: Tally, n': nat, i: nat)
    requires CaughtUp(job, w0, w, y, n, i) && i < |job.ks| && Fresh(job.newId, w'.table, |z.created|)
    requires AsLoop(w'.table, z, n') == Read(job.newId, job.batchSize, AsLoop(w.table, y, n), job.ks[i], i + 1)
    requires NoRedisFaults(job) ==> Mirrors(w, y.created, w', z.created)
    requires !FailsAt(job, w0.table, i)
    ensures CaughtUp(job, w0, w', z, n', i + 1)
  {
    assert job.ks[..i + 1][..i] == job.ks[..i];
    MirrorsCompose(w0, w, y.created, w', z.created);
  }

  /** The row's two cells, and that they are well formed. */
  ghost predicate Says(rules: Rules, at: Columns, cols: seq<string>, name: string, ipv4: string) {
    CellIs(cols, at.name, name) && CellIs(cols, at.ipv4, ipv4) && WellFormed(rules, name, ipv4)
  }

  /** What an import makes of the table, in terms of the cells of the sheet: no old row is
      touched, every new server is well formed, ONLINE and without failures, and every
      well-formed row has its name or its address in the table. */
  ghost predicate ComesFrom(rules: Rules, at: Columns, sheet: seq<seq<string>>, t: Table, t': Table) {
    && (forall id :: id in t ==> id in t' && t'[id] == t[id])
    && (forall id :: id in t' && id !in t ==>
          WellFormed(rules, t'[id].name, t'[id].ipv4) && t'[id].status.Online? && t'[id].failures == 0)
    && (forall i, name, ipv4 :: 1 <= i < |sheet| && Says(rules, at, sheet[i], name, ipv4) ==> Taken(t', Candidate(name, ipv4)))
  }

  lemma ImportComesFrom(newId: nat -> Id, rules: Rules, at: Columns, sheet: seq<seq<string>>, t: Table)
    requires Fresh(newId, t, 0) && UniqueTrimmed(t) && sheet != []
    ensures ComesFrom(rules, at, sheet, t, Sequential(newId, t, Kinds(rules, at, sheet[1..])).table)
  {
    var ks := Kinds(rules, at, sheet[1..]);
    var t' := Sequential(newId, t, ks).table;
    KindsAreTrimmed(rules, at, sheet[1..]);
    KindsAreRight(rules, at, sheet[1..]);
    SequentialExtends(newId, t, ks);
    forall i, name, ipv4 | 1 <= i < |sheet| && Says(rules, at, sheet[i], name, ipv4) ensures Taken(t', Candidate(name, ipv4)) {
      ClassifyIff(rules, at, sheet[i], name, ipv4);
      assert sheet[1..][i - 1] == sheet[i];
      assert ks[i - 1] == Proper(Candidate(name, ipv4));
      SequentialCovers(newId, t, ks, i - 1, Candidate(name, ipv4));
    }
  }

  /** The answer of an import that succeeded: the created names in order, a text for every
      failure, and every row that is not blank answered for once. */
  ghost predicate Reports(r: ImportResult, ks: seq<Kind>, p: Progress, failed: seq<Failure>) {
    && r.Imported?
    && r.successCount == |r.successful| == |p.created| && r.failCount == |r.failed| == |failed|
    && (forall i :: 0 <= i < |p.created| ==> r.successful[i] == p.created[i].1.name)
    && (forall i :: 0 <= i < |failed| ==> r.failed[i] == Render(failed[i]))
    && multiset(failed) == multiset(p.failed)
    && Answered(Rows(ks), p)
  }

  lemma ImportReports(newId: nat -> Id, size: nat, t: Table, ks: seq<Kind>)
    ensures var p, q := Sequential(newId, t, ks), BatchedResult(newId, size, t, ks);
            Reports(Imported(|q.created|, Names(q.created), |q.failed|, RenderAll(q.failed)), ks, p, q.failed) && |q.failed| == |p.failed|
  {
    var p, q := Sequential(newId, t, ks), BatchedResult(newId, size, t, ks);
    BatchedRefinesSequential(newId, size, t, ks);
    assert |multiset(q.failed)| == |multiset(p.failed)|;
    EveryRowIsAnswered(newId, t, ks);
  }

  // ---- The service ------------------------------------------------------------------

  class ServerService {
    var world: World
    const batchSize: nat

    ghost predicate Valid()
      reads this
    {
      UniqueTrimmed(world.table) && batchSize >= 1
    }

    constructor (world: World, batchSize: nat)
      requires UniqueTrimmed(world.table) && batchSize >= 1
      ensures Valid() && this.world == world && this.batchSize == batchSize
    {
      this.world := world;
      this.batchSize := batchSize;
    }

    method GetByName(name: string) returns (r: Option<Id>)
      ensures r.Some? ==> r.value in world.table && world.table[r.value].name == Trim(name)
      ensures r.None? ==> !NameHeld(world.table, Trim(name), None)
    {
      var hits := set id | id in world.table && world.table[id].name == Trim(name);
      if hits == {} {
        assert forall id :: id in world.table && world.table[id].name == Trim(name) ==> id in hits;
        return None;
      }
      var id :| id in hits;
      return Some(id);
    }

    method GetByIPv4(ipv4: string) returns (r: Option<Id>)
      ensures r.Some? ==> r.value in world.table && world.table[r.value].ipv4 == Trim(ipv4)
      ensures r.None? ==> !Ipv4Held(world.table, Trim(ipv4), None)
    {
      var hits := set id | id in world.table && world.table[id].ipv4 == Trim(ipv4);
      if hits == {} {
        assert forall id :: id in world.table && world.table[id].ipv4 == Trim(ipv4) ==> id in hits;
        return None;
      }
      var id :| id in hits;
      return Some(id);
    }

    method CacheUpsert(id: Id, row: Row, f: AdminFaults)
      modifies this`world
      ensures world == Upsert(old(world), id, row, f)
    {
      if f.redis1 { return; }
      world := world.(info := world.info[id := Hash(Some(row.ipv4), row.status, row.failures)]);
      if f.redis2 { return; }
      world := world.(ids := world.ids + {id});
    }

    method CreateServer(id: Id, name: string, ipv4: string, f: AdminFaults) returns (r: Result<Id>)
      requires Valid() && id !in world.table
      modifies this
      ensures Valid()
      ensures (world, r) == Create(old(world), id, name, ipv4, f)
      ensures r != Err(DuplicateKey)
    {
      CreateIsClean(world, id, name, ipv4, f);
      if f.getName { return Err(StoreError); }
      var existing := GetByName(name);
      if existing.Some? { return Err(NameExists); }
      if f.getIpv4 { return Err(StoreError); }
      existing := GetByIPv4(ipv4);
      if existing.Some? { return Err(Ipv4Exists); }
      if f.write { return Err(StoreError); }
      var row := Row(Trim(name), Trim(ipv4), Online, 0);
      world := world.(table := world.table[id := row]);
      CacheUpsert(id, row, f);
      return Ok(id);
    }

    method UpdateServer(id: Id, name: string, ipv4: string, f: AdminFaults) returns (r: Result<Row>)
      requires Valid()
      modifies this
      ensures Valid()
      ensures (world, r) == Update(old(world), id, name, ipv4, f)
      ensures r != Err(DuplicateKey)
    {
      UpdateIsClean(world, id, name, ipv4, f);
      if f.getId { return Err(StoreError); }
      if id !in world.table { return Err(ServerNotFound); }
      var row := world.table[id];
      if name != row.name {
        if f.getName { return Err(StoreError); }
        var existing := GetByName(name);
        if existing.Some? && existing.value != id { return Err(NameExists); }
        row := row.(name := name);
      }
      if ipv4 != row.ipv4 {
        if f.getIpv4 { return Err(StoreError); }
        var existing := GetByIPv4(ipv4);
        if existing.Some? && existing.value != id { return Err(Ipv4Exists); }
        row := row.(ipv4 := ipv4);
      }
      if f.write { return Err(StoreError); }
      row := row.(name := Trim(row.name), ipv4 := Trim(row.ipv4));
      world := world.(table := world.table[id := row]);
      CacheUpsert(id, row, f);
      return Ok(row);
    }

    method DeleteServer(id: Id, f: AdminFaults) returns (r: Result<Id>)
      requires Valid()
      modifies this
      ensures Valid()
      ensures (world, r) == Delete(old(world), id, f)
    {
      DeleteIsClean(world, id, f);
      if f.getId { return Err(StoreError); }
      if id !in world.table { return Err(ServerNotFound); }
      if f.write { return Err(StoreError); }
      world := world.(table := world.table - {id});
      if f.redis1 { return Ok(id); }
      world := world.(info := world.info - {id});
      if f.redis2 { return Ok(id); }
      world := world.(ids := world.ids - {id});
      return Ok(id);
    }

    /** The look-up sets of a batch, from the rows that share a name or an address with it. */
    method FindExisting(batch: seq<Candidate>) returns (names: set<string>, ips: set<string>)
      ensures Answers(world.table, batch, names, ips)
    {
      var wantedNames := set c | c in batch :: c.name;
      var wantedIps := set c | c in batch :: c.ipv4;
      var t := world.table;
      var found := set id | id in t && (t[id].name in wantedNames || t[id].ipv4 in wantedIps);
      names := set id | id in found :: t[id].name;
      ips := set id | id in found :: t[id].ipv4;
      forall c | c in batch
        ensures (c.name in names <==> NameHeld(t, c.name, None)) && (c.ipv4 in ips <==> Ipv4Held(t, c.ipv4, None))
      {
        if NameHeld(t, c.name, None) {
          var id :| id in t && t[id].name == c.name;
          assert id in found;
        }
        if Ipv4Held(t, c.ipv4, None) {
          var id :| id in t && t[id].ipv4 == c.ipv4;
          assert id in found;
        }
      }
    }

    /** One INSERT of all rows: all of them or, on any violation, none. */
    method BatchCreate(items: seq<(Id, Candidate)>, fails: bool) returns (ok: bool)
      modifies this`world
      ensures ok == (!fails && InsertAll(old(world).table, items).Some?)
      ensures world == if ok then old(world).(table := InsertAll(old(world).table, items).value) else old(world)
    {
      var t := InsertAll(world.table, items);
      if fails || t.None? { return false; }
      world := world.(table := t.value);
      return true;
    }

    method BatchUpsert(items: seq<(Id, Candidate)>, lost: set<nat>)
      modifies this`world
      ensures world == Pipelined(old(world), items, lost)
    {
      for i := 0 to |items|
        invariant world == Pipelined(old(world), items[..i], lost)
      {
        assert items[..i + 1][..i] == items[..i];
        var (id, c) := items[i];
        if 2 * i !in lost {
          world := world.(info := world.info[id := Hash(Some(c.ipv4), Online, 0)]);
        }
        if 2 * i + 1 !in lost {
          world := world.(ids := world.ids + {id});
        }
      }
      assert items[..|items|] == items;
    }

    /** Decide a batch against the look-up sets, which grow with every acceptance. */
    method FilterBatch(batch: seq<Candidate>, newId: nat -> Id, used: nat)
      returns (valid: seq<(Id, Candidate)>, duplicates: seq<Failure>)
      requires Valid() && Fresh(newId, world.table, used) && AllTrimmed(batch)
      ensures var a := AcceptAll(newId, Progress(world.table, used, [], []), batch);
              valid == a.created && duplicates == a.failed && InsertAll(world.table, valid) == Some(a.table)
    {
      var names, ips := FindExisting(batch);
      valid, duplicates := [], [];
      ghost var p0 := Progress(world.table, used, [], []);
      for j := 0 to |batch|
        invariant Filtered(world.table, batch, AcceptAll(newId, p0, batch[..j]), used, valid, duplicates, names, ips)
      {
        var c := batch[j];
        assert batch[..j + 1][..j] == batch[..j];
        AcceptAllSound(newId, p0, batch[..j]);
        FilterStep(newId, world.table, batch, AcceptAll(newId, p0, batch[..j]), used, valid, duplicates, names, ips, c);
        if c.name in names || c.ipv4 in ips {
          duplicates := duplicates + [Duplicate(c.name, c.ipv4)];
        } else {
          valid := valid + [(newId(used + |valid|), c)];
          names := names + {c.name};
          ips := ips + {c.ipv4};
        }
      }
      assert batch[..|batch|] == batch;
    }

    method ProcessBatch(batch: seq<Candidate>, newId: nat -> Id, used: nat, f: BatchFaults)
      returns (ok: bool, created: seq<(Id, Candidate)>, duplicates: seq<Failure>)
      requires Valid() && Fresh(newId, world.table, used) && AllTrimmed(batch)
      modifies this
      ensures Valid()
      ensures var a := AcceptAll(newId, Progress(old(world).table, used, [], []), batch);
              && ok == (batch == [] || (!f.find && (a.created == [] || !f.create)))
              && (!ok ==> world == old(world))
              && (ok ==> && created == a.created && duplicates == a.failed
                         && world.table == a.table
                         && world == Pipelined(old(world).(table := a.table), a.created, f.lost))
    {
      created, duplicates := [], [];
      if batch == [] { return true, created, duplicates; }
      if f.find { return false, created, duplicates; }
      AcceptAllSound(newId, Progress(world.table, used, [], []), batch);
      var valid, dups := FilterBatch(batch, newId, used);
      if |valid| > 0 {
        ok := BatchCreate(valid, f.create);
        if !ok { return false, created, duplicates; }
        PipelineIsSound(world, valid, f.lost, "");
        BatchUpsert(valid, f.lost);
      }
      return true, valid, dups;
    }

    method ScanHeader(rules: Rules, header: seq<string>) returns (nameIdx: int, ipIdx: int)
      ensures nameIdx == LastTitle(header, t => IsNameTitle(rules, t))
      ensures ipIdx == LastTitle(header, t => IsIpv4Title(rules, t))
    {
      nameIdx, ipIdx := -1, -1;
      for i := 0 to |header|
        invariant nameIdx == LastTitle(header[..i], t => IsNameTitle(rules, t))
        invariant ipIdx == LastTitle(header[..i], t => IsIpv4Title(rules, t))
      {
        assert header[..i + 1][..i] == header[..i];
        if IsNameTitle(rules, header[i]) {
          nameIdx := i;
        } else if IsIpv4Title(rules, header[i]) {
          ipIdx := i;
        }
      }
      assert header[..|header|] == header;
    }

    /** Decide the pending batch and clear it; a store error leaves everything as it was. */
    method Flush(job: Job, y: Tally, ghost m: nat, ghost n: nat) returns (ok: bool, z: Tally)
      requires Valid() && Fresh(job.newId, world.table, |y.created|) && AllTrimmed(y.batch)
      modifies this
      ensures Valid()
      ensures ok == !Fails(job, AsLoop(old(world).table, y, m))
      ensures !ok ==> world == old(world)
      ensures ok ==> && Fresh(job.newId, world.table, |z.created|)
                     && AsLoop(world.table, z, n) == Flushed(job.newId, AsLoop(old(world).table, y, m), n)
                     && (job.faults(y.batches).lost == {} ==> Mirrors(old(world), y.created, world, z.created))
    {
      FlushMeaning(job, world.table, y, m, n);
      var news, dups;
      ok, news, dups := ProcessBatch(y.batch, job.newId, |y.created|, job.faults(y.batches));
      if !ok { return false, y; }
      z := Tally(y.created + news, y.failed + dups, [], y.batches + 1);
      UpsertAllTable(old(world).(table := world.table), news);
      NothingLost(old(world).(table := world.table), news);
    }

    /** One data row: skipped, reported, or added to the batch, which is decided once full. */
    method ReadRow(job: Job, rules: Rules, at: Columns, cols: seq<string>, y: Tally, ghost m: nat, ghost i: nat)
      returns (ok: bool, z: Tally, ghost n: nat)
      requires Valid() && job.batchSize == batchSize && i < |job.ks| && job.ks[i] == Classify(rules, at, cols)
      requires TrimmedKinds(job.ks) && Fresh(job.newId, world.table, |y.created|) && AllTrimmed(y.batch)
      modifies this
      ensures Valid()
      ensures var l, k := AsLoop(old(world).table, y, m), job.ks[i];
              ok == !(k.Proper? && |y.batch| + 1 >= batchSize && Fails(job, l.(batch := l.batch + [k.c])))
      ensures !ok ==> world == old(world)
      ensures ok ==> && Fresh(job.newId, world.table, |z.created|)
                     && AsLoop(world.table, z, n) == Read(job.newId, batchSize, AsLoop(old(world).table, y, m), job.ks[i], i + 1)
                     && (NoRedisFaults(job) ==> Mirrors(old(world), y.created, world, z.created))
    {
      ok, z, n := true, y, m;
      MirrorsItself(world, y.created);
      var name, ipv4 := Field(cols, at.name), Field(cols, at.ipv4);
      if name == "" && ipv4 == "" { return; }
      if name == "" || ipv4 == "" || Utf8Length(name) > 255 || !rules.isIPv4(ipv4) {
        z := y.(failed := y.failed + [InvalidFormat(name, ipv4)]);
        return;
      }
      z := y.(batch := y.batch + [Candidate(name, ipv4)]);
      if |z.batch| >= batchSize {
        ok, z := Flush(job, z, m, i + 1);
        n := i + 1;
      }
    }

    /** Read every data row, deciding the batch whenever it is full. */
    method ReadRows(job: Job, rules: Rules, at: Columns, rows: seq<seq<string>>) returns (ok: bool, y: Tally, ghost n: nat)
      requires job.ks == Kinds(rules, at, rows) && TrimmedKinds(job.ks)
      requires Valid() && job.batchSize == batchSize && Fresh(job.newId, world.table, 0)
      modifies this
      ensures Valid()
      ensures !ok ==> StoppedAtFault(job, old(world), world)
      ensures ok ==> CaughtUp(job, old(world), world, y, n, |job.ks|)
    {
      ok, y, n := true, Tally([], [], [], 0), 0;
      for i := 0 to |rows|
        invariant Valid() && ok && CaughtUp(job, old(world), world, y, n, i)
      {
        BatchIsTrimmed(job.newId, batchSize, old(world).table, job.ks[..i]);
        ghost var w := world;
        var z;
        ghost var n';
        ok, z, n' := ReadRow(job, rules, at, rows[i], y, n, i);
        if !ok {
          StoppedHere(job, old(world), world, y, n, i);
          return;
        }
        StillCaughtUp(job, old(world), w, y, n, world, z, n', i);
        y, n := z, n';
      }
    }

    /** Read every data row, and decide the last batch. */
    method ImportRows(job: Job, rules: Rules, at: Columns, rows: seq<seq<string>>) returns (ok: bool, y: Tally)
      requires job.ks == Kinds(rules, at, rows)
      requires Valid() && job.batchSize == batchSize && Fresh(job.newId, world.table, 0)
      modifies this
      ensures Valid()
      ensures !ok ==> StoppedAtFault(job, old(world), world)
      ensures ok ==> && AsProgress(world.table, y) == BatchedResult(job.newId, batchSize, old(world).table, job.ks)
                     && (NoRedisFaults(job) ==> world == UpsertAll(old(world).(table := world.table), y.created))
                     && forall i: nat :: i <= |job.ks| ==> !FailsAt(job, old(world).table, i)
    {
      KindsAreTrimmed(rules, at, rows);
      ghost var n;
      ok, y, n := ReadRows(job, rules, at, rows);
      if !ok { return; }
      assert job.ks[..|job.ks|] == job.ks;
      BatchIsTrimmed(job.newId, batchSize, old(world).table, job.ks);
      ghost var w := world;
      var z;
      ok, z := Flush(job, y, n, |job.ks|);
      if !ok {
        StoppedHere(job, old(world), world, y, n, |job.ks|);
        return;
      }
      MirrorsCompose(old(world), w, y.created, world, z.created);
      y := z;
    }

    /** The whole import. Without store errors the table, the created servers and their
        order are those of the sequential import, and so are the failures of each kind;
        the import fails exactly if the store calls of some batch do, and then the stores are
        those of the sequential import of the rows of the batches before the first of these. */
    method ImportServers(rules: Rules, sheet: seq<seq<string>>, newId: nat -> Id, faults: nat -> BatchFaults)
      returns (r: ImportResult)
      requires Valid() && Fresh(newId, world.table, 0)
      modifies this
      ensures Valid()
      ensures r == Rejected(EmptyFile) <==> sheet == []
      ensures r == Rejected(MissingColumns) <==> sheet != [] && HeaderOf(rules, sheet[0]).None?
      ensures r.Rejected? && r.error != BatchFailed ==> world == old(world)
      ensures r.Imported? ==>
                var job := Job(newId, Kinds(rules, HeaderOf(rules, sheet[0]).value, sheet[1..]), faults, batchSize);
                var p := Sequential(job.newId, old(world).table, job.ks);
                var q := BatchedResult(job.newId, batchSize, old(world).table, job.ks);
                && world.table == p.table
                && Reports(r, job.ks, p, q.failed)
                && r.successCount + r.failCount == NonBlank(job.ks)
                && |world.table| == |old(world).table| + r.successCount
                && (NoRedisFaults(job) ==> world == UpsertAll(old(world).(table := p.table), p.created))
                && forall i: nat :: i <= |job.ks| ==> !FailsAt(job, old(world).table, i)
      ensures r.Imported? ==> ComesFrom(rules, HeaderOf(rules, sheet[0]).value, sheet, old(world).table, world.table)
      ensures sheet != [] && HeaderOf(rules, sheet[0]).Some? && (forall b :: !faults(b).find && !faults(b).create) ==> r.Imported?
      ensures r == Rejected(BatchFailed) ==>
                && sheet != [] && HeaderOf(rules, sheet[0]).Some?
                && StoppedAtFault(Job(newId, Kinds(rules, HeaderOf(rules, sheet[0]).value, sheet[1..]), faults, batchSize),
                                  old(world), world)
    {
      if |sheet| == 0 { return Rejected(EmptyFile); }
      var nameIdx, ipIdx := ScanHeader(rules, sheet[0]);
      LastTitleRange(sheet[0], t => IsNameTitle(rules, t));
      LastTitleRange(sheet[0], t => IsIpv4Title(rules, t));
      if nameIdx == -1 || ipIdx == -1 { return Rejected(MissingColumns); }
      var at, rows := Columns(nameIdx, ipIdx), sheet[1..];
      var job := Job(newId, Kinds(rules, at, rows), faults, batchSize);
      ghost var t0 := world.table;
      var ok, y := ImportRows(job, rules, at, rows);
      KindsAreTrimmed(rules, at, rows);
      if !ok { return Rejected(BatchFailed); }
      BatchedRefinesSequential(job.newId, batchSize, t0, job.ks);
      SequentialAccounting(job.newId, t0, job.ks);
      ImportReports(job.newId, batchSize, t0, job.ks);
      ImportComesFrom(newId, rules, at, sheet, t0);
      return Imported(|y.created|, Names(y.created), |y.failed|, RenderAll(y.failed));
    }
  }
}
