/** Whole runs of the session service: what every error-free run keeps, and what that
    means for refresh tokens and for access tokens. */
module AuthRuns {
  import opened Stores
  import opened AuthSessions

  datatype Op =
    | LoginOp(user: Option<nat>, passwordOk: bool, text: string, f: Faults)
    | RefreshOp(text: string, userKnown: bool, newText: string, f: Faults)
    | LogoutOp(session: nat, f: Faults)
    | LogoutAllOp(of: nat, f: Faults)
    | Tick(d: nat)

  function Next(st: State, op: Op): State {
    match op
    case LoginOp(user, ok, text, f) => Login(st, user, ok, text, f).0
    case RefreshOp(text, known, newText, f) => Refresh(st, text, known, newText, f).0
    case LogoutOp(s, f) => Logout(st, s, f)
    case LogoutAllOp(u, f) => LogoutAll(st, u, f)
    case Tick(d) => st.(now := st.now + d)
  }

  function Exec(st: State, ops: seq<Op>): State {
    if ops == [] then st else Next(Exec(st, ops[..|ops| - 1]), ops[|ops| - 1])
  }

  ghost predicate Unused(st: State, text: string) {
    forall i :: 0 <= i < |st.tokens| ==> st.tokens[i].text != text
  }

  predicate ErrorFree(op: Op) {
    op.Tick? || op.f == NO_FAULTS
  }

  /** No store call fails, and generated token texts are new. */
  ghost predicate Proper(st: State, op: Op) {
    ErrorFree(op) && (op.LoginOp? ==> Unused(st, op.text)) && (op.RefreshOp? ==> Unused(st, op.newText))
  }

  ghost predicate ProperRun(st: State, ops: seq<Op>) {
    forall i :: 0 <= i < |ops| ==> Proper(Exec(st, ops[..i]), ops[i])
  }

  function Empty(now: Time): State { State(now, [], [], map[]) }

  // ---- The invariant --------------------------------------------------------------

  /** A session lasts a week from its login, and a token belongs to a session of the same
      user and expires with it. */
  ghost predicate Rooted(st: State) {
    && (forall s :: 0 <= s < |st.sessions| ==>
          st.sessions[s].createdAt <= st.now && st.sessions[s].expiresAt == st.sessions[s].createdAt + WEEK)
    && (forall t :: 0 <= t < |st.tokens| ==>
          var x := st.tokens[t];
          && x.session < |st.sessions|
          && x.user == st.sessions[x.session].user
          && x.expiresAt == st.sessions[x.session].expiresAt)
  }

  ghost predicate SessionsOk(st: State) {
    forall s :: 0 <= s < |st.sessions| && st.sessions[s].revokedAt.Some? ==> st.sessions[s].revokedAt.value <= st.now
  }

  /** While a token is unrevoked so is its session. */
  ghost predicate TokensOk(st: State)
    requires Rooted(st)
  {
    forall t :: 0 <= t < |st.tokens| && st.tokens[t].revokedAt.None? ==> st.sessions[st.tokens[t].session].revokedAt.None?
  }

  ghost predicate DistinctTexts(tokens: seq<Token>) {
    forall i, j :: 0 <= i < j < |tokens| ==> tokens[i].text != tokens[j].text
  }

  /** The next token of the same session, or none if there is no later one. */
  ghost predicate Linked(tokens: seq<Token>, t: nat)
    requires t < |tokens|
  {
    match tokens[t].replacedBy
    case None => forall v :: t < v < |tokens| ==> tokens[v].session != tokens[t].session
    case Some(u) =>
      && t < u < |tokens| && tokens[u].session == tokens[t].session
      && tokens[t].revokedAt.Some?
      && forall v :: t < v < u ==> tokens[v].session != tokens[t].session
  }

  ghost predicate Chained(tokens: seq<Token>) {
    forall t: nat :: t < |tokens| ==> Linked(tokens, t)
  }

  ghost predicate MarkOk(st: State, s: nat)
    requires s < |st.sessions|
  {
    var x := st.sessions[s];
    if x.revokedAt.Some? && x.revokedAt.value < x.expiresAt && RoundToSecond(x.expiresAt - x.revokedAt.value) > 0
    then s in st.marks && st.marks[s] == x.revokedAt.value + RoundToSecond(x.expiresAt - x.revokedAt.value)
    else s !in st.marks
  }

  /** Exactly the sessions revoked while active have a mark, and it says when it ends. */
  ghost predicate MarksOk(st: State) {
    && (forall s :: s in st.marks ==> s < |st.sessions|)
    && (forall s: nat :: s < |st.sessions| ==> MarkOk(st, s))
  }

  ghost predicate Inv(st: State) {
    Rooted(st) && SessionsOk(st) && TokensOk(st) && DistinctTexts(st.tokens) && Chained(st.tokens) && MarksOk(st)
  }

  // ---- Preservation ---------------------------------------------------------------

  lemma LoginInv(st: State, user: Option<nat>, ok: bool, text: string)
    requires Inv(st) && Unused(st, text)
    ensures Inv(Login(st, user, ok, text, NO_FAULTS).0)
  {
    var st' := Login(st, user, ok, text, NO_FAULTS).0;
    forall t: nat | t < |st'.tokens| ensures Linked(st'.tokens, t) {
      if t < |st.tokens| { assert Linked(st.tokens, t); }
    }
    forall s: nat | s < |st'.sessions| ensures MarkOk(st', s) {
      if s < |st.sessions| { assert MarkOk(st, s); }
    }
  }

  /** Revoking more rows never breaks a chain. */
  lemma RevokeKeepsChain(tokens: seq<Token>, which: Token -> bool, now: Time)
    requires Chained(tokens) && DistinctTexts(tokens)
    ensures var after := RevokeTokens(tokens, which, now);
            && Chained(after) && DistinctTexts(after) && |after| == |tokens|
            && forall t :: 0 <= t < |tokens| ==>
                 && after[t] == tokens[t].(revokedAt := after[t].revokedAt)
                 && (after[t].revokedAt.None? <==> tokens[t].revokedAt.None? && !which(tokens[t]))
  {
    var after := RevokeTokens(tokens, which, now);
    forall t: nat | t < |after| ensures Linked(after, t) {
      assert Linked(tokens, t);
    }
  }

  lemma {:induction false} MarkActiveMarks(marks: map<nat, Time>, sessions: seq<Session>, user: nat, now: Time, lost: set<nat>, s: nat)
    ensures var m := MarkActive(marks, sessions, user, now, lost);
            && (s in m ==> s in marks || s < |sessions|)
            && (if s < |sessions| && sessions[s].user == user && Active(sessions[s], now) && s !in lost && RoundToSecond(sessions[s].expiresAt - now) > 0
                then s in m && m[s] == now + RoundToSecond(sessions[s].expiresAt - now)
                else (s in m <==> s in marks) && (s in m ==> m[s] == marks[s]))
  {
    if sessions != [] {
      MarkActiveMarks(marks, sessions[..|sessions| - 1], user, now, lost, s);
    }
  }

  lemma LogoutAllInv(st: State, user: nat)
    requires Inv(st)
    ensures Inv(LogoutAll(st, user, NO_FAULTS))
  {
    var st' := LogoutAll(st, user, NO_FAULTS);
    RevokeKeepsChain(st.tokens, (t: Token) => t.user == user, st.now);
    forall s: nat | s < |st'.sessions| ensures MarkOk(st', s) {
      assert MarkOk(st, s);
      MarkActiveMarks(st.marks, st.sessions, user, st.now, {}, s);
    }
    forall s | s in st'.marks ensures s < |st'.sessions| {
      MarkActiveMarks(st.marks, st.sessions, user, st.now, {}, s);
    }
  }

  lemma LogoutInv(st: State, session: nat)
    requires Inv(st)
    ensures Inv(Logout(st, session, NO_FAULTS))
  {
    var st' := Logout(st, session, NO_FAULTS);
    RevokeKeepsChain(st.tokens, (t: Token) => t.session == session, st.now);
    forall s: nat | s < |st'.sessions| ensures MarkOk(st', s) {
      assert MarkOk(st, s);
    }
  }

  /** The exchanged token is the last of its session, and the new one takes its place. */
  lemma RotateChains(st: State, t: nat, newText: string)
    requires Inv(st) && Unused(st, newText) && t < |st.tokens| && st.tokens[t].revokedAt.None?
    ensures var after := Rotate(st, t, newText, NO_FAULTS); Chained(after) && DistinctTexts(after)
  {
    var after, n := Rotate(st, t, newText, NO_FAULTS), |st.tokens|;
    assert Linked(st.tokens, t);
    forall v: nat | v < |after| ensures Linked(after, v) {
      if v < n {
        assert Linked(st.tokens, v);
        assert after[v].session == st.tokens[v].session;
        assert v != t ==> after[v] == st.tokens[v];
        assert after[n].session == st.tokens[t].session;
      }
    }
  }

  lemma RefreshInv(st: State, text: string, known: bool, newText: string)
    requires Inv(st) && Unused(st, newText)
    ensures Inv(Refresh(st, text, known, newText, NO_FAULTS).0)
  {
    var found := FindByText(st.tokens, text);
    if found.Some? && text != "" {
      var t := st.tokens[found.value];
      if t.revokedAt.Some? {
        LogoutAllInv(st, t.user);
      } else {
        RotateChains(st, found.value, newText);
        var st' := Refresh(st, text, known, newText, NO_FAULTS).0;
        forall s: nat | s < |st'.sessions| ensures MarkOk(st', s) { assert MarkOk(st, s); }
      }
    }
  }

  lemma NextInv(st: State, op: Op)
    requires Inv(st) && Proper(st, op)
    ensures Inv(Next(st, op))
  {
    match op
    case LoginOp(user, ok, text, _) => LoginInv(st, user, ok, text);
    case RefreshOp(text, known, newText, _) => RefreshInv(st, text, known, newText);
    case LogoutOp(s, _) => LogoutInv(st, s);
    case LogoutAllOp(u, _) => LogoutAllInv(st, u);
    case Tick(d) =>
      var st' := Next(st, op);
      forall s: nat | s < |st'.sessions| ensures MarkOk(st', s) { assert MarkOk(st, s); }
  }

  lemma {:induction false} ExecInv(now: Time, ops: seq<Op>)
    requires ProperRun(Empty(now), ops)
    ensures Inv(Exec(Empty(now), ops))
  {
    if ops != [] {
      var rest := ops[..|ops| - 1];
      assert forall i :: 0 <= i < |rest| ==> rest[..i] == ops[..i] && rest[i] == ops[i];
      ExecInv(now, rest);
      assert ops[..|ops| - 1] == rest;
      NextInv(Exec(Empty(now), rest), ops[|ops| - 1]);
    }
  }

  lemma LogoutAllRooted(st: State, user: nat, f: Faults)
    requires Rooted(st)
    ensures Rooted(LogoutAll(st, user, f))
  {
  }

  lemma RefreshRooted(st: State, text: string, known: bool, newText: string, f: Faults)
    requires Rooted(st)
    ensures Rooted(Refresh(st, text, known, newText, f).0)
  {
    var found := FindByText(st.tokens, text);
    if found.Some? && st.tokens[found.value].revokedAt.Some? {
      LogoutAllRooted(st, st.tokens[found.value].user, f);
    }
  }

  /** Store errors do not touch the roots. */
  lemma NextRooted(st: State, op: Op)
    requires Rooted(st)
    ensures Rooted(Next(st, op))
  {
    match op
    case LogoutAllOp(user, f) => LogoutAllRooted(st, user, f);
    case RefreshOp(text, known, newText, f) => RefreshRooted(st, text, known, newText, f);
    case _ =>
  }

  lemma {:induction false} ExecRooted(now: Time, ops: seq<Op>)
    ensures Rooted(Exec(Empty(now), ops))
  {
    if ops != [] {
      ExecRooted(now, ops[..|ops| - 1]);
      NextRooted(Exec(Empty(now), ops[..|ops| - 1]), ops[|ops| - 1]);
    }
  }

  // ---- One linear chain per session -----------------------------------------------

  /** The tokens of a session among the first n, in the order of issue. */
  function ChainOf(tokens: seq<Token>, session: nat, n: nat): (c: seq<nat>)
    requires n <= |tokens|
    ensures forall i :: 0 <= i < |c| ==> c[i] < n && tokens[c[i]].session == session
  {
    if n == 0 then []
    else ChainOf(tokens, session, n - 1) + if tokens[n - 1].session == session then [n - 1] else []
  }

  ghost predicate Increasing(c: seq<nat>) {
    forall i, j :: 0 <= i < j < |c| ==> c[i] < c[j]
  }

  lemma {:induction false} ChainIsSorted(tokens: seq<Token>, session: nat, n: nat)
    requires n <= |tokens|
    ensures Increasing(ChainOf(tokens, session, n))
  {
    if n > 0 {
      ChainIsSorted(tokens, session, n - 1);
      var c, p := ChainOf(tokens, session, n), ChainOf(tokens, session, n - 1);
      forall i, j | 0 <= i < j < |c| ensures c[i] < c[j] {
        assert c[i] == p[i] && p[i] < n - 1;
        if j < |p| {
          assert c[j] == p[j];
        } else {
          assert c[j] == n - 1;
        }
      }
    }
  }

  lemma {:induction false} ChainIsComplete(tokens: seq<Token>, session: nat, n: nat, t: nat)
    requires t < n <= |tokens| && tokens[t].session == session
    ensures t in ChainOf(tokens, session, n)
  {
    if t < n - 1 { ChainIsComplete(tokens, session, n - 1, t); }
  }

  /** The i-th token of the list is replaced by the next one, which is younger, and is
      revoked; the last one is not replaced. */
  ghost predicate AtPlace(tokens: seq<Token>, c: seq<nat>, i: nat)
    requires i < |c| && forall j :: 0 <= j < |c| ==> c[j] < |tokens|
  {
    if i < |c| - 1 then c[i] < c[i + 1] && tokens[c[i]].replacedBy == Some(c[i + 1]) && tokens[c[i]].revokedAt.Some?
    else tokens[c[i]].replacedBy.None?
  }

  lemma NoneBetween(tokens: seq<Token>, session: nat, i: nat, t: nat)
    requires t < |tokens| && tokens[t].session == session
    requires var c := ChainOf(tokens, session, |tokens|); i < |c| && c[i] < t
    ensures var c := ChainOf(tokens, session, |tokens|); i + 1 < |c| && c[i + 1] <= t
  {
    var c := ChainOf(tokens, session, |tokens|);
    ChainIsSorted(tokens, session, |tokens|);
    ChainIsComplete(tokens, session, |tokens|, t);
    var j :| 0 <= j < |c| && c[j] == t;
    assert i < j;
  }

  /** The successor a token is linked to is its neighbour in the list. */
  lemma LinkedToNeighbour(tokens: seq<Token>, session: nat, i: nat)
    requires Chained(tokens) && i < |ChainOf(tokens, session, |tokens|)|
    ensures var c := ChainOf(tokens, session, |tokens|);
            AtPlace(tokens, c, i)
  {
    var c := ChainOf(tokens, session, |tokens|);
    var t := c[i];
    ChainIsSorted(tokens, session, |tokens|);
    assert Linked(tokens, t);
    if i < |c| - 1 {
      var v := c[i + 1];
      assert t < v && tokens[v].session == session;
      assert tokens[t].replacedBy.Some?;
      NoneBetween(tokens, session, i, tokens[t].replacedBy.value);
    } else if tokens[t].replacedBy.Some? {
      NoneBetween(tokens, session, i, tokens[t].replacedBy.value);
    }
  }

  /** In every reachable state the tokens of a session, in order of issue, are linked
      each to the next by `replacedBy`, all but the last are revoked, none is replaced by
      an older one, and every token of the session is in the list. */
  lemma RefreshTokensFormAChain(now: Time, ops: seq<Op>, session: nat)
    requires ProperRun(Empty(now), ops)
    ensures var tokens := Exec(Empty(now), ops).tokens;
            var c := ChainOf(tokens, session, |tokens|);
            && (forall t: nat :: t < |tokens| ==> (t in c <==> tokens[t].session == session))
            && forall i: nat :: i < |c| ==> AtPlace(tokens, c, i)
  {
    ExecInv(now, ops);
    var tokens := Exec(Empty(now), ops).tokens;
    var c := ChainOf(tokens, session, |tokens|);
    forall t: nat | t < |tokens| ensures t in c <==> tokens[t].session == session {
      if tokens[t].session == session { ChainIsComplete(tokens, session, |tokens|, t); }
    }
    forall i: nat | i < |c| ensures AtPlace(tokens, c, i) {
      LinkedToNeighbour(tokens, session, i);
    }
  }

  // ---- Revocation is final; no token is exchanged twice ---------------------------

  ghost predicate Follows(a: State, b: State) {
    && |a.tokens| <= |b.tokens| && |a.sessions| <= |b.sessions| && a.now <= b.now
    && (forall t :: 0 <= t < |a.tokens| ==> b.tokens[t].text == a.tokens[t].text && b.tokens[t].user == a.tokens[t].user
                                            && b.tokens[t].session == a.tokens[t].session && b.tokens[t].expiresAt == a.tokens[t].expiresAt)
    && (forall t :: 0 <= t < |a.tokens| && a.tokens[t].revokedAt.Some? ==> b.tokens[t].revokedAt.Some?)
    && (forall s :: 0 <= s < |a.sessions| ==> b.sessions[s].user == a.sessions[s].user && b.sessions[s].expiresAt == a.sessions[s].expiresAt)
    && (forall s :: 0 <= s < |a.sessions| && a.sessions[s].revokedAt.Some? ==> b.sessions[s].revokedAt == a.sessions[s].revokedAt)
  }

  lemma LogoutAllFollows(st: State, user: nat, f: Faults)
    ensures Follows(st, LogoutAll(st, user, f))
  {
  }

  lemma RefreshFollows(st: State, text: string, known: bool, newText: string, f: Faults)
    ensures Follows(st, Refresh(st, text, known, newText, f).0)
  {
    var found := FindByText(st.tokens, text);
    if found.Some? && st.tokens[found.value].revokedAt.Some? {
      LogoutAllFollows(st, st.tokens[found.value].user, f);
    }
  }

  lemma NextFollows(st: State, op: Op)
    ensures Follows(st, Next(st, op))
  {
    match op
    case LogoutAllOp(user, f) => LogoutAllFollows(st, user, f);
    case RefreshOp(text, known, newText, f) => RefreshFollows(st, text, known, newText, f);
    case _ =>
  }

  /** Whatever fails, rows are only ever added, and what is revoked stays revoked. */
  lemma {:induction false} ExecFollows(st: State, ops: seq<Op>, i: nat)
    requires i <= |ops|
    ensures Follows(Exec(st, ops[..i]), Exec(st, ops))
    decreases |ops|
  {
    if i == |ops| {
      assert ops[..i] == ops;
    } else {
      var rest := ops[..|ops| - 1];
      assert rest[..i] == ops[..i];
      ExecFollows(st, rest, i);
      NextFollows(Exec(st, rest), ops[|ops| - 1]);
    }
  }

  predicate Grants(st: State, op: Op) {
    op.RefreshOp? && Refresh(st, op.text, op.userKnown, op.newText, op.f).1.Granted?
  }

  /** A token is live while it is unrevoked and the week of its session has not passed. */
  ghost predicate Live(st: State, t: nat)
    requires Rooted(st) && t < |st.tokens|
  {
    st.tokens[t].revokedAt.None? && st.now < st.sessions[st.tokens[t].session].createdAt + WEEK
  }

  ghost predicate LiveText(st: State, text: string)
    requires Rooted(st)
  {
    text != "" && exists t: nat :: t < |st.tokens| && Live(st, t) && st.tokens[t].text == text
  }

  /** In every reachable state a refresh is granted exactly for a live token of a known
      user, unless a look-up or the signature fails: the session's own row never decides the
      matter. Every other answer is exact too. */
  lemma GrantedIffLive(st: State, text: string, known: bool, newText: string, f: Faults)
    requires Inv(st)
    ensures var r, live := Refresh(st, text, known, newText, f).1, LiveText(st, text) && !f.find && !f.active;
            && (r.Granted? <==> live && known && !f.sign)
            && (r == Failure <==> live && known && f.sign)
            && (r == UserNotFound <==> live && !known)
            && (r == InvalidRefreshToken <==> !live)
  {
    var found := FindByText(st.tokens, text);
    if found.Some? {
      var t := found.value;
      assert st.tokens[t].text == text && (Live(st, t) <==> st.tokens[t].revokedAt.None? && st.now < st.tokens[t].expiresAt);
      forall u: nat | u < |st.tokens| && st.tokens[u].text == text ensures u == t { }
    }
  }

  /** An access token handed out at `now` expires 15 minutes later, in whole seconds. */
  ghost predicate LastsFifteenMinutes(a: Access, now: Time) {
    a.exp * 1_000_000_000 <= now + 900_000_000_000 < (a.exp + 1) * 1_000_000_000
  }

  /** A login is granted exactly for an existing user with the right password when no call
      fails; it hands out the generated refresh token and an access token for that user and
      for the session it has just added. */
  lemma LoginAnswers(st: State, user: Option<nat>, ok: bool, text: string, f: Faults)
    ensures var (st', r) := Login(st, user, ok, text, f);
            && (r.Granted? <==> user.Some? && ok && !f.find && !f.newSession && !f.newToken && !f.sign)
            && (r == InvalidCredentials <==> !f.find && (user.None? || !ok))
            && (r.Granted? || r == InvalidCredentials || r == Failure)
            && (r.Granted? ==>
                  && r.refresh == text && r.access.user == user.value
                  && |st.sessions| <= r.access.session < |st'.sessions| && st'.sessions[r.access.session].user == user.value
                  && LastsFifteenMinutes(r.access, st.now))
  {
  }

  /** The rows a login leaves, whatever fails: a session of a week once the password is
      right, and its token after it; nothing else changes. */
  lemma LoginLeaves(st: State, user: Option<nat>, ok: bool, text: string, f: Faults)
    ensures var (st', _) := Login(st, user, ok, text, f);
            var opens := user.Some? && ok && !f.find && !f.newSession;
            && st'.now == st.now && st'.marks == st.marks
            && st'.sessions == st.sessions + (if opens then [Session(user.value, st.now, st.now + 604_800_000_000_000, None)] else [])
            && st'.tokens == st.tokens + (if opens && !f.newToken
                                          then [Token(|st.sessions|, user.value, text, st.now + 604_800_000_000_000, None, None)] else [])
  {
  }

  /** A granted refresh hands out the new refresh token, and an access token for the session
      of the presented token and for that session's user. */
  lemma RefreshAnswers(st: State, text: string, known: bool, newText: string, f: Faults)
    requires Refresh(st, text, known, newText, f).1.Granted?
    ensures var r, t := Refresh(st, text, known, newText, f).1, FindByText(st.tokens, text);
            && t.Some? && st.tokens[t.value].text == text
            && r.refresh == newText
            && r.access.session == st.tokens[t.value].session < |st.sessions|
            && r.access.user == st.sessions[r.access.session].user
            && LastsFifteenMinutes(r.access, st.now)
  {
  }

  function HandOut(st: State, op: Op): Reply {
    match op
    case LoginOp(user, ok, text, f) => Login(st, user, ok, text, f).1
    case RefreshOp(text, known, newText, f) => Refresh(st, text, known, newText, f).1
    case _ => InvalidCredentials
  }

  /** The session that an operation opens or renews: the one it adds, or that of the token
      presented to it. */
  function SessionOf(st: State, op: Op): int {
    if op.LoginOp? then |st.sessions|
    else if op.RefreshOp? then
      var t := FindByText(st.tokens, op.text);
      if t.Some? then st.tokens[t.value].session else -1
    else -1
  }

  /** In every run, with whatever store errors and from whatever state, one text is
      granted a second time only if both writes that revoke it failed at the first. */
  lemma NoDoubleExchange(st: State, ops: seq<Op>, i: nat, j: nat)
    requires i < j < |ops| && ops[i].RefreshOp? && ops[j].RefreshOp? && ops[i].text == ops[j].text
    requires Grants(Exec(st, ops[..i]), ops[i]) && Grants(Exec(st, ops[..j]), ops[j])
    ensures ops[i].f.endToken && ops[i].f.link
  {
    var st1 := Exec(st, ops[..i]);
    var t := FindByText(st1.tokens, ops[i].text).value;
    assert ops[..i + 1][..i] == ops[..i];
    assert Exec(st, ops[..i + 1]) == Next(st1, ops[i]);
    assert ops[..j][..i + 1] == ops[..i + 1];
    ExecFollows(st, ops[..j], i + 1);
    NextFollows(st1, ops[i]);
    var st2 := Exec(st, ops[..j]);
    assert FindByText(st2.tokens, ops[i].text) == Some(t);
  }

  /** And that is exact: presented again at once, the token is granted again if and only
      if both those writes failed. The token handed out is on record exactly if its
      insert succeeded. */
  lemma GrantUnderFaults(st: State, op: Op, newText: string)
    requires Grants(st, op) && Unused(st, op.newText)
    ensures var st' := Next(st, op);
            && (Refresh(st', op.text, op.userKnown, newText, NO_FAULTS).1.Granted? <==> op.f.endToken && op.f.link)
            && (FindByText(st'.tokens, op.newText).Some? <==> !op.f.newToken)
  {
    var st' := Next(st, op);
    var t := FindByText(st.tokens, op.text).value;
    assert forall i :: 0 <= i < |st.tokens| ==> st'.tokens[i].text == st.tokens[i].text;
    assert FindByText(st'.tokens, op.text) == Some(t);
    if !op.f.newToken {
      assert st'.tokens[|st.tokens|].text == op.newText;
    }
  }

  /** Unless its write fails, the replacement link leads to the row of the new token, or
      nowhere if that was not inserted. */
  lemma LinkUnderFaults(st: State, op: Op)
    requires Grants(st, op)
    ensures var t, st' := FindByText(st.tokens, op.text).value, Next(st, op);
            if op.f.link then st'.tokens[t].replacedBy == st.tokens[t].replacedBy
            else if op.f.newToken then st'.tokens[t].replacedBy == Some(-1)
            else |st'.tokens| == |st.tokens| + 1 && st'.tokens[t].replacedBy == Some(|st.tokens|) && st'.tokens[|st.tokens|].text == op.newText
  {
  }

  /** A token just issued, by a login or by an exchange, is granted to its user. */
  lemma IssuedTokenIsUsable(st: State, op: Op, newText: string)
    requires Inv(st) && Proper(st, op)
    ensures op.LoginOp? && op.text != "" && op.passwordOk && op.user.Some? ==>
              var r := Refresh(Next(st, op), op.text, true, newText, NO_FAULTS).1;
              r.Granted? && r.access.user == op.user.value
    ensures Grants(st, op) && op.newText != "" ==>
              var r := Refresh(Next(st, op), op.newText, true, newText, NO_FAULTS).1;
              r.Granted? && r.access.user == Refresh(st, op.text, op.userKnown, op.newText, op.f).1.access.user
  {
    var st' := Next(st, op);
    if op.LoginOp? && op.passwordOk && op.user.Some? {
      assert FindByText(st'.tokens, op.text) == Some(|st.tokens|);
    }
    if Grants(st, op) {
      assert forall i :: 0 <= i < |st.tokens| ==> st'.tokens[i].text == st.tokens[i].text;
      assert FindByText(st'.tokens, op.newText) == Some(|st.tokens|);
    }
  }

  /** The text is that of a revoked token of the user. */
  predicate Reused(st: State, text: string, user: nat) {
    var r := FindByText(st.tokens, text);
    text != "" && r.Some? && st.tokens[r.value].revokedAt.Some? && st.tokens[r.value].user == user
  }

  /** What takes a live token out of use, completely and whatever fails: its own exchange
      unless both writes that revoke it fail, a logout of its active session, a logout of
      its user, or the presentation of any revoked token of the same user. */
  lemma RevokedExactlyBy(st: State, op: Op, t: nat)
    requires Rooted(st) && DistinctTexts(st.tokens) && t < |st.tokens| && st.tokens[t].revokedAt.None?
    ensures var x := st.tokens[t];
            Next(st, op).tokens[t].revokedAt.Some? <==>
            || (op.RefreshOp? && op.text == x.text && (HandOut(st, op).Granted? || HandOut(st, op) == Failure)
                && !(op.f.endToken && op.f.link))
            || (op.LogoutOp? && op.session == x.session && Active(st.sessions[x.session], st.now) && !op.f.active && !op.f.endToken)
            || (op.LogoutAllOp? && op.of == x.user && !op.f.active && !op.f.endToken)
            || (op.RefreshOp? && Reused(st, op.text, x.user) && !op.f.find && !op.f.active && !op.f.endToken)
  {
  }

  /** And what ends a session, in the same way. */
  lemma EndedExactlyBy(st: State, op: Op, s: nat)
    requires s < |st.sessions| && st.sessions[s].revokedAt.None?
    ensures var x := st.sessions[s];
            Next(st, op).sessions[s].revokedAt.Some? <==>
            || (op.LogoutOp? && op.session == s && x.expiresAt > st.now && !op.f.active && !op.f.endSession)
            || (op.LogoutAllOp? && op.of == x.user && !op.f.active && !op.f.endSession)
            || (op.RefreshOp? && Reused(st, op.text, x.user) && !op.f.find && !op.f.active && !op.f.endSession)
  {
  }

  // ---- Reuse detection ------------------------------------------------------------

  /** Which sessions a refresh ends, exactly: those of the user whose revoked token was
      presented, unless the listing or the revocation failed. */
  lemma SessionEndedByRefreshIff(st: State, text: string, known: bool, newText: string, f: Faults, s: nat)
    requires s < |st.sessions| && st.sessions[s].revokedAt.None?
    ensures Refresh(st, text, known, newText, f).0.sessions[s].revokedAt.Some? <==>
            Reused(st, text, st.sessions[s].user) && !f.find && !f.active && !f.endSession
  {
  }

  /** A token that is expired but not revoked is refused and nothing else happens: the
      other sessions of its user stay as they are. */
  lemma ExpiredTokenIsOnlyRefused(st: State, text: string, known: bool, newText: string, f: Faults, t: nat)
    requires FindByText(st.tokens, text) == Some(t) && st.tokens[t].revokedAt.None? && st.tokens[t].expiresAt < st.now
    ensures Refresh(st, text, known, newText, f) == (st, InvalidRefreshToken)
  {
  }

  ghost predicate SessionsOver(st: State, user: nat) {
    forall s :: 0 <= s < |st.sessions| && st.sessions[s].user == user ==> st.sessions[s].revokedAt.Some?
  }

  ghost predicate TokensOver(st: State, user: nat) {
    forall t :: 0 <= t < |st.tokens| && st.tokens[t].user == user ==> st.tokens[t].revokedAt.Some?
  }

  /** No unrevoked session and no unrevoked refresh token of the user. */
  ghost predicate LockedOut(st: State, user: nat) {
    SessionsOver(st, user) && TokensOver(st, user)
  }

  ghost predicate LogsIn(op: Op, user: nat) {
    op.LoginOp? && op.passwordOk && op.user == Some(user)
  }

  ghost predicate NeverLogsIn(ops: seq<Op>, user: nat) {
    forall i :: 0 <= i < |ops| ==> !LogsIn(ops[i], user)
  }

  lemma LockedOutStays(st: State, op: Op, user: nat)
    requires Rooted(st) && LockedOut(st, user) && !LogsIn(op, user)
    ensures LockedOut(Next(st, op), user)
  {
  }

  /** A user without live session and token stays so, whatever fails, until they log in. */
  lemma {:induction false} LockedOutRun(st: State, ops: seq<Op>, user: nat)
    requires Rooted(st) && LockedOut(st, user) && NeverLogsIn(ops, user)
    ensures Rooted(Exec(st, ops)) && LockedOut(Exec(st, ops), user)
  {
    if ops != [] {
      var rest := ops[..|ops| - 1];
      assert forall i :: 0 <= i < |rest| ==> rest[i] == ops[i];
      LockedOutRun(st, rest, user);
      LockedOutStays(Exec(st, rest), ops[|ops| - 1], user);
      NextRooted(Exec(st, rest), ops[|ops| - 1]);
    }
  }

  /** Whatever is presented and whatever fails, no refresh is granted to the user. */
  ghost predicate NoneGranted(st: State, user: nat) {
    forall op: Op :: Grants(st, op) ==> Refresh(st, op.text, op.userKnown, op.newText, op.f).1.access.user != user
  }

  lemma LockedOutIsRefused(st: State, user: nat)
    requires Rooted(st) && LockedOut(st, user)
    ensures NoneGranted(st, user)
  {
  }

  /** What presenting a revoked token leaves its user, exactly, under every combination of
      store errors. */
  lemma ReuseEndsAllIff(st: State, text: string, known: bool, newText: string, f: Faults, user: nat)
    requires Reused(st, text, user)
    ensures var st', reached := Refresh(st, text, known, newText, f).0, !f.find && !f.active;
            && (SessionsOver(st', user) <==> SessionsOver(st, user) || (reached && !f.endSession))
            && (TokensOver(st', user) <==> TokensOver(st, user) || (reached && !f.endToken))
  {
    var st' := Refresh(st, text, known, newText, f).0;
    assert st' == if f.find then st else LogoutAll(st, user, f);
  }

  /** Presenting a revoked token, at any point of any run, ends every session and token of
      its user there and then unless one of three store calls fails; and through every
      further run, whatever fails in it, in which that user does not log in again no refresh
      is ever granted to them. */
  lemma ReuseLocksOut(st: State, text: string, known: bool, newText: string, f: Faults, user: nat)
    requires Rooted(st) && Reused(st, text, user)
    ensures var st' := Refresh(st, text, known, newText, f).0;
            && (!f.find && !f.active && !f.endSession && !f.endToken ==> LockedOut(st', user))
            && (LockedOut(st', user) ==>
                  forall after: seq<Op> :: NeverLogsIn(after, user) ==>
                    LockedOut(Exec(st', after), user) && NoneGranted(Exec(st', after), user))
  {
    var st' := Refresh(st, text, known, newText, f).0;
    ReuseEndsAllIff(st, text, known, newText, f, user);
    NextRooted(st, RefreshOp(text, known, newText, f));
    if LockedOut(st', user) {
      forall after: seq<Op> | NeverLogsIn(after, user)
        ensures LockedOut(Exec(st', after), user) && NoneGranted(Exec(st', after), user)
      {
        LockedOutRun(st', after, user);
        LockedOutIsRefused(Exec(st', after), user);
      }
    }
  }

  // ---- Lifetimes ------------------------------------------------------------------

  /** Rotation never extends or shortens a session: in every run, with whatever store
      errors, every refresh token expires exactly a week after the login that opened its
      session. */
  lemma TokensExpireWithTheirLogin(now: Time, ops: seq<Op>, t: nat)
    requires t < |Exec(Empty(now), ops).tokens|
    ensures var st := Exec(Empty(now), ops);
            st.tokens[t].session < |st.sessions| && st.tokens[t].expiresAt == st.sessions[st.tokens[t].session].createdAt + 604_800_000_000_000
  {
    ExecRooted(now, ops);
  }

  /** The time to live is the whole number of seconds nearest to the time left, and is zero
      below half a second. */
  lemma RoundingError(d: Time)
    requires d >= 0
    ensures d - 500_000_000 <= RoundToSecond(d) <= d + 500_000_000 && RoundToSecond(d) % 1_000_000_000 == 0
    ensures RoundToSecond(d) > 0 <==> d >= 500_000_000
  {
  }

  lemma MarkedByLogoutAll(st: State, user: nat, f: Faults, s: nat)
    requires s < |st.sessions|
    ensures var x, m := st.sessions[s], LogoutAll(st, user, f).marks;
            if x.user == user && !f.active && s !in f.unmarked && x.revokedAt.None? && x.expiresAt - st.now >= 500_000_000
            then s in m && m[s] == st.now + RoundToSecond(x.expiresAt - st.now)
            else (s in m <==> s in st.marks) && (s in st.marks ==> m[s] == st.marks[s])
  {
    MarkActiveMarks(st.marks, st.sessions, user, st.now, f.unmarked, s);
    if st.sessions[s].expiresAt >= st.now { RoundingError(st.sessions[s].expiresAt - st.now); }
  }

  /** What marks a session, completely: a logout of it, a logout of its user or the
      presentation of a revoked token of the same user, while it is active and has half a
      second to live, unless the look-up before it or the mark itself fails. Whether the
      rows could be revoked does not matter to the mark. */
  lemma MarkedExactlyBy(st: State, op: Op, s: nat)
    requires s < |st.sessions|
    ensures var x, st' := st.sessions[s], Next(st, op);
            var hit := || (op.LogoutOp? && op.session == s && !op.f.active)
                       || (op.LogoutAllOp? && op.of == x.user && !op.f.active)
                       || (op.RefreshOp? && Reused(st, op.text, x.user) && !op.f.find && !op.f.active);
            if hit && s !in op.f.unmarked && x.revokedAt.None? && x.expiresAt - st.now >= 500_000_000
            then s in st'.marks && st'.marks[s] == st.now + RoundToSecond(x.expiresAt - st.now)
            else (s in st'.marks <==> s in st.marks) && (s in st.marks ==> st'.marks[s] == st.marks[s])
  {
    match op
    case RefreshOp(text, _, _, f) =>
      var found := FindByText(st.tokens, text);
      if found.Some? { MarkedByLogoutAll(st, st.tokens[found.value].user, f, s); }
    case LogoutAllOp(user, f) => MarkedByLogoutAll(st, user, f, s);
    case LogoutOp(_, _) => if st.sessions[s].expiresAt >= st.now { RoundingError(st.sessions[s].expiresAt - st.now); }
    case _ =>
  }

  /** Nothing that happens later, failing or not, adds, moves or removes the mark of a
      session already revoked. */
  lemma NextKeepsMark(st: State, op: Op, s: nat)
    requires s < |st.sessions| && st.sessions[s].revokedAt.Some?
    ensures s in Next(st, op).marks <==> s in st.marks
    ensures s in st.marks ==> Next(st, op).marks[s] == st.marks[s]
  {
    MarkedExactlyBy(st, op, s);
  }

  lemma {:induction false} ExecKeepsMark(st: State, ops: seq<Op>, s: nat)
    requires s < |st.sessions| && st.sessions[s].revokedAt.Some?
    ensures s in Exec(st, ops).marks <==> s in st.marks
    ensures s in st.marks ==> Exec(st, ops).marks[s] == st.marks[s]
  {
    if ops != [] {
      var rest := ops[..|ops| - 1];
      ExecKeepsMark(st, rest, s);
      ExecFollows(st, rest, 0);
      assert rest[..0] == [];
      NextKeepsMark(Exec(st, rest), ops[|ops| - 1], s);
    }
  }

  /** When the refusal of a revoked session ends: the mark lapses with the session, up to
      rounding, and a session revoked after its expiry is never marked. */
  function Lapse(x: Session): Time
    requires x.revokedAt.Some?
  {
    var at := x.revokedAt.value;
    if at < x.expiresAt then at + RoundToSecond(x.expiresAt - at) else at
  }

  /** From any state, and over every further run with or without store errors: the mark of
      a revoked session, or its absence, decides every later access. */
  lemma RefusedUntilMarkEnds(st: State, a: Access, ops: seq<Op>)
    requires a.session < |st.sessions| && st.sessions[a.session].revokedAt.Some?
    ensures var end := Exec(st, ops);
            && end.now >= st.now
            && (Authenticates(end, a, false) <==>
                  end.now < a.exp * SECOND && (a.session in st.marks ==> st.marks[a.session] <= end.now))
  {
    ExecKeepsMark(st, ops, a.session);
    ExecFollows(st, ops, 0);
    assert ops[..0] == [];
  }

  lemma RevokedNow(st: State, op: Op, s: nat)
    requires s < |st.sessions| && st.sessions[s].revokedAt.None? && Next(st, op).sessions[s].revokedAt.Some?
    ensures Next(st, op).now == st.now && Next(st, op).sessions[s] == st.sessions[s].(revokedAt := Some(st.now))
  {
  }

  /** Which revocations leave a mark, exactly: those of a session with at least half a
      second to live whose mark is not lost to an ignored store error. */
  lemma MarkedIff(st: State, op: Op, s: nat)
    requires s < |st.sessions| && st.sessions[s].revokedAt.None? && Next(st, op).sessions[s].revokedAt.Some?
    ensures !op.Tick?
    ensures var st' := Next(st, op);
            if s !in op.f.unmarked && st.sessions[s].expiresAt - st.now >= SECOND / 2
            then s in st'.marks && st'.marks[s] == Lapse(st'.sessions[s])
            else (s in st'.marks <==> s in st.marks) && (s in st.marks ==> st'.marks[s] == st.marks[s])
  {
    MarkedExactlyBy(st, op, s);
    EndedExactlyBy(st, op, s);
    RevokedNow(st, op, s);
  }

  /** From any state: unless the mark itself is lost, the access tokens of a session are
      refused from the moment it is revoked until at most half a second before its expiry,
      whatever else fails then or later, provided Redis answers. */
  lemma RevokedSessionIsRefused(st: State, op: Op, a: Access, ops: seq<Op>)
    requires a.session < |st.sessions| && st.sessions[a.session].revokedAt.None? && Next(st, op).sessions[a.session].revokedAt.Some?
    requires !op.Tick? && a.session !in op.f.unmarked
    requires Exec(Next(st, op), ops).now < st.sessions[a.session].expiresAt - SECOND / 2
    ensures !Authenticates(Exec(Next(st, op), ops), a, false)
  {
    var st', s := Next(st, op), a.session;
    MarkedIff(st, op, s);
    RefusedUntilMarkEnds(st', a, ops);
    RevokedNow(st, op, s);
    RoundingError(st.sessions[s].expiresAt - st.now);
  }

  /** In particular the access token that a login or a refresh hands out is refused from the
      moment its own session is revoked: the one the login added, or the one whose refresh
      token was presented. */
  lemma HandedOutTokenIsRefused(st: State, op: Op, between: seq<Op>, end: Op, after: seq<Op>)
    requires HandOut(st, op).Granted?
    requires var s, st1 := SessionOf(st, op), Exec(Next(st, op), between);
             && 0 <= s < |st1.sessions| && st1.sessions[s].revokedAt.None?
             && !end.Tick? && s !in end.f.unmarked && Next(st1, end).sessions[s].revokedAt.Some?
             && Exec(Next(st1, end), after).now < st1.sessions[s].expiresAt - SECOND / 2
    ensures !Authenticates(Exec(Next(Exec(Next(st, op), between), end), after), HandOut(st, op).access, false)
  {
    if op.LoginOp? {
      LoginAnswers(st, op.user, op.passwordOk, op.text, op.f);
      LoginLeaves(st, op.user, op.passwordOk, op.text, op.f);
    } else {
      RefreshAnswers(st, op.text, op.userKnown, op.newText, op.f);
    }
    RevokedSessionIsRefused(Exec(Next(st, op), between), end, HandOut(st, op).access, after);
  }

  /** Without Redis the check fails open: only the expiry counts. */
  lemma FailsOpen(st: State, a: Access)
    ensures Authenticates(st, a, true) <==> st.now < a.exp * 1_000_000_000
  {
  }

  /** "Refused for good" is a stronger claim. Of an access token of a revoked
      session, whatever failed before and whatever fails later, it holds if and only if the
      token has expired already or expires no later than the session's mark. */
  lemma RefusedForGoodIff(st: State, a: Access)
    requires a.session < |st.sessions| && st.sessions[a.session].revokedAt.Some?
    ensures (forall ops: seq<Op> :: !Authenticates(Exec(st, ops), a, false))
            <==> a.exp * SECOND <= st.now || (a.session in st.marks && a.exp * SECOND <= st.marks[a.session])
  {
    var until := if a.session in st.marks && st.marks[a.session] > st.now then st.marks[a.session] else st.now;
    forall ops: seq<Op> ensures Authenticates(Exec(st, ops), a, false) ==> until < a.exp * SECOND {
      RefusedUntilMarkEnds(st, a, ops);
    }
    if until < a.exp * SECOND {
      var wait := [Tick(until - st.now)];
      assert wait[..0] == [] && Exec(st, []) == st;
      RefusedUntilMarkEnds(st, a, wait);
      assert Authenticates(Exec(st, wait), a, false);
    }
  }

  lemma LapseOfRow(st: State, s: nat)
    requires SessionsOk(st) && MarksOk(st) && s < |st.sessions| && st.sessions[s].revokedAt.Some?
    ensures if s in st.marks then st.marks[s] == Lapse(st.sessions[s]) else Lapse(st.sessions[s]) <= st.now
  {
    var x := st.sessions[s];
    assert MarkOk(st, s);
    if x.revokedAt.value < x.expiresAt { RoundingError(x.expiresAt - x.revokedAt.value); }
  }

  /** So after error-free runs the session row alone decides. */
  lemma RefusedForGoodByRow(st: State, a: Access)
    requires Inv(st) && a.session < |st.sessions| && st.sessions[a.session].revokedAt.Some?
    ensures (forall ops: seq<Op> :: !Authenticates(Exec(st, ops), a, false))
            <==> a.exp * SECOND <= st.now || a.exp * SECOND <= Lapse(st.sessions[a.session])
  {
    RefusedForGoodIff(st, a);
    LapseOfRow(st, a.session);
  }

  /** What one login leaves, and what a later renewal and the end of the session do. */
  lemma RenewedLate(text: string, text': string, d: nat)
    requires text != "" && text' != text && d < WEEK
    ensures var st := Next(Next(Empty(0), LoginOp(Some(7), true, text, NO_FAULTS)), Tick(d));
            var (st', r) := Refresh(st, text, true, text', NO_FAULTS);
            && r == Granted(Access(7, 0, (d + ACCESS_LIFETIME) / SECOND), text')
            && st'.now == d && st'.sessions == [Session(7, 0, WEEK, None)] && st'.marks == map[]
  {
    var st := State(d, [Session(7, 0, WEEK, None)], [Token(0, 7, text, WEEK, None, None)], map[]);
    assert Next(Next(Empty(0), LoginOp(Some(7), true, text, NO_FAULTS)), Tick(d)) == st;
    assert FindByText(st.tokens, text) == Some(0);
    var (st', r) := Refresh(st, text, true, text', NO_FAULTS);
    assert st' == st.(tokens := Rotate(st, 0, text', NO_FAULTS)) && r == Granted(NewAccess(7, 0, d), text');
  }

  /** It fails in four ways. A token renewed a second before the session expires is
      refused after the logout, and accepted again a minute later. */
  lemma RefusalMayLapse(text: string, text': string)
    requires text != "" && text' != text
    ensures var st1 := Next(Empty(0), LoginOp(Some(7), true, text, NO_FAULTS));
            var st2 := Next(st1, Tick(WEEK - SECOND));
            var (st3, r) := Refresh(st2, text, true, text', NO_FAULTS);
            var st4 := Next(st3, LogoutOp(0, NO_FAULTS));
            && r.Granted? && st4.sessions[0].revokedAt.Some?
            && !Authenticates(st4, r.access, false)
            && Authenticates(Next(st4, Tick(61 * SECOND)), r.access, false)
  {
    RenewedLate(text, text', WEEK - SECOND);
  }

  /** Renewed and logged out within the last half second, the session is never marked,
      and the token is accepted at once. */
  lemma RefusalMayNotBegin(text: string, text': string)
    requires text != "" && text' != text
    ensures var st1 := Next(Empty(0), LoginOp(Some(7), true, text, NO_FAULTS));
            var st2 := Next(st1, Tick(WEEK - SECOND / 2 + 1));
            var (st3, r) := Refresh(st2, text, true, text', NO_FAULTS);
            var st4 := Next(st3, LogoutOp(0, NO_FAULTS));
            && r.Granted? && st4.sessions[0].revokedAt.Some? && st4.now < st4.sessions[0].expiresAt
            && Authenticates(st4, r.access, false)
  {
    RenewedLate(text, text', WEEK - SECOND / 2 + 1);
  }

  /** A logout of all sessions after the expiry revokes the session without marking it,
      and the token renewed before is still accepted. */
  lemma LateLogoutLeavesNoMark(text: string, text': string)
    requires text != "" && text' != text
    ensures var st1 := Next(Empty(0), LoginOp(Some(7), true, text, NO_FAULTS));
            var st2 := Next(st1, Tick(WEEK - SECOND));
            var (st3, r) := Refresh(st2, text, true, text', NO_FAULTS);
            var st4 := Next(Next(st3, Tick(2 * SECOND)), LogoutAllOp(7, NO_FAULTS));
            && r.Granted? && st4.sessions[0].revokedAt.Some?
            && Authenticates(st4, r.access, false)
  {
    RenewedLate(text, text', WEEK - SECOND);
    MarkActiveMarks(map[], [Session(7, 0, WEEK, None)], 7, WEEK + SECOND, {}, 0);
  }

  /** A logout whose mark is lost to a store error, which the code ignores, revokes the
      session, and its access token is accepted at once. */
  lemma LostMarkRefusesNothing(text: string)
    ensures var (st1, r) := Login(Empty(0), Some(7), true, text, NO_FAULTS);
            var st2 := Next(st1, LogoutOp(0, NO_FAULTS.(unmarked := {0})));
            && r.Granted? && st2.sessions[0].revokedAt.Some? && st2.now < st2.sessions[0].expiresAt
            && r.access.exp * SECOND <= Lapse(st2.sessions[0])
            && Authenticates(st2, r.access, false)
  {
  }
}
