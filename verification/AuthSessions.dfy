/** Login sessions with rotating refresh tokens, reuse detection, and the revocation
    marks in Redis that the access-token check consults. Each operation is one atomic
    step; times are in nanoseconds on one clock. Rows are numbered in the order in which
    they were inserted, and a stored hash stands for the token text itself. */
module AuthSessions {
  import opened Stores

  type Time = int

  const SECOND: Time := 1_000_000_000
  const WEEK: Time := 7 * 24 * 3600 * SECOND
  const ACCESS_LIFETIME: Time := 15 * 60 * SECOND

  /** What MarkReplacement stores when the new row was never inserted. */
  const NIL_ID := -1

  datatype Session = Session(user: nat, createdAt: Time, expiresAt: Time, revokedAt: Option<Time>)

  datatype Token = Token(session: nat, user: nat, text: string, expiresAt: Time, revokedAt: Option<Time>, replacedBy: Option<int>)

  /** `marks` holds, for each key revoked_session:<id>, when it expires. */
  datatype State = State(now: Time, sessions: seq<Session>, tokens: seq<Token>, marks: map<nat, Time>)

  /** The claims of an access token; `exp` is in whole seconds. */
  datatype Access = Access(user: nat, session: nat, exp: int)

  datatype Reply = Granted(access: Access, refresh: string) | InvalidCredentials | InvalidRefreshToken | UserNotFound | Failure

  /** Which calls of one operation fail: the look-up of the user or of the presented
      token, that of the active session or sessions, the insertion of either row, the
      revocation of either kind of row, the replacement link, the signature of the access
      token, and the marks of these sessions. */
  datatype Faults = Faults(
    find: bool, active: bool, newSession: bool, newToken: bool,
    endSession: bool, endToken: bool, link: bool, sign: bool, unmarked: set<nat>)

  const NO_FAULTS := Faults(false, false, false, false, false, false, false, false, {})

  // ---- Store calls ----------------------------------------------------------------

  predicate Active(s: Session, now: Time) {
    s.revokedAt.None? && s.expiresAt > now
  }

  /** The first row with the given text; there is none exactly when no row has it. */
  function FindByText(tokens: seq<Token>, text: string): (r: Option<nat>)
    ensures r.Some? ==> r.value < |tokens| && tokens[r.value].text == text
    ensures r.Some? ==> forall i :: 0 <= i < r.value ==> tokens[i].text != text
    ensures r.None? ==> forall i :: 0 <= i < |tokens| ==> tokens[i].text != text
  {
    if tokens == [] then None
    else match FindByText(tokens[..|tokens| - 1], text)
      case Some(t) => Some(t)
      case None => if tokens[|tokens| - 1].text == text then Some(|tokens| - 1) else None
  }

  function RevokeTokens(tokens: seq<Token>, which: Token -> bool, now: Time): seq<Token> {
    seq(|tokens|, i requires 0 <= i < |tokens| =>
      if which(tokens[i]) && tokens[i].revokedAt.None? then tokens[i].(revokedAt := Some(now)) else tokens[i])
  }

  function RevokeSessions(sessions: seq<Session>, user: nat, now: Time): seq<Session> {
    seq(|sessions|, i requires 0 <= i < |sessions| =>
      if sessions[i].user == user && sessions[i].revokedAt.None? then sessions[i].(revokedAt := Some(now)) else sessions[i])
  }

  /** Duration.Round to whole seconds: halves go away from zero. */
  function RoundToSecond(d: Time): Time {
    if d < 0 then -((-d + SECOND / 2) / SECOND * SECOND) else (d + SECOND / 2) / SECOND * SECOND
  }

  function MarkRevoked(marks: map<nat, Time>, session: nat, expiresAt: Time, now: Time): map<nat, Time> {
    var ttl := RoundToSecond(expiresAt - now);
    if ttl <= 0 then marks else marks[session := now + ttl]
  }

  /** One mark for every session that was active, but for those whose mark is lost. */
  function MarkActive(marks: map<nat, Time>, sessions: seq<Session>, user: nat, now: Time, lost: set<nat>): map<nat, Time> {
    if sessions == [] then marks
    else
      var n := |sessions| - 1;
      var m := MarkActive(marks, sessions[..n], user, now, lost);
      if sessions[n].user == user && Active(sessions[n], now) && n !in lost
      then MarkRevoked(m, n, sessions[n].expiresAt, now) else m
  }

  function NewAccess(user: nat, session: nat, now: Time): Access {
    Access(user, session, (now + ACCESS_LIFETIME) / SECOND)
  }

  predicate MarkLive(st: State, session: nat) {
    session in st.marks && st.now < st.marks[session]
  }

  /** The access check: not expired, and no live mark unless Redis does not answer. */
  predicate Authenticates(st: State, a: Access, redisDown: bool) {
    st.now < a.exp * SECOND && (redisDown || !MarkLive(st, a.session))
  }

  // ---- Operations -----------------------------------------------------------------

  function Login(st: State, user: Option<nat>, passwordOk: bool, text: string, f: Faults): (State, Reply) {
    if f.find then (st, Failure)
    else if user.None? || !passwordOk then (st, InvalidCredentials)
    else if f.newSession then (st, Failure)
    else
      var s, expiry := |st.sessions|, st.now + WEEK;
      var begun := st.(sessions := st.sessions + [Session(user.value, st.now, expiry, None)]);
      if f.newToken then (begun, Failure)
      else
        var st' := begun.(tokens := st.tokens + [Token(s, user.value, text, expiry, None, None)]);
        (st', if f.sign then Failure else Granted(NewAccess(user.value, s, st.now), text))
  }

  function LogoutAll(st: State, user: nat, f: Faults): State {
    if f.active then st
    else st.(sessions := if f.endSession then st.sessions else RevokeSessions(st.sessions, user, st.now),
             tokens := if f.endToken then st.tokens else RevokeTokens(st.tokens, (t: Token) => t.user == user, st.now),
             marks := MarkActive(st.marks, st.sessions, user, st.now, f.unmarked))
  }

  function Rotate(st: State, t: nat, newText: string, f: Faults): seq<Token>
    requires t < |st.tokens| && st.tokens[t].session < |st.sessions|
  {
    var session := st.sessions[st.tokens[t].session];
    var expiry := if st.now + WEEK > session.expiresAt then session.expiresAt else st.now + WEEK;
    var next := Token(st.tokens[t].session, session.user, newText, expiry, None, None);
    var a := if f.endToken then st.tokens else st.tokens[t := st.tokens[t].(revokedAt := Some(st.now))];
    var b := if f.newToken then a else a + [next];
    if f.link then b
    else b[t := b[t].(revokedAt := Some(st.now), replacedBy := Some(if f.newToken then NIL_ID else |st.tokens|))]
  }

  function Refresh(st: State, text: string, userKnown: bool, newText: string, f: Faults): (State, Reply) {
    var found := FindByText(st.tokens, text);
    if text == "" || f.find || found.None? then (st, InvalidRefreshToken)
    else
      var t := st.tokens[found.value];
      if t.revokedAt.Some? then (LogoutAll(st, t.user, f), InvalidRefreshToken)
      else if t.expiresAt < st.now then (st, InvalidRefreshToken)
      else if f.active || t.session >= |st.sessions| || !Active(st.sessions[t.session], st.now) then (st, InvalidRefreshToken)
      else if !userKnown then (st, UserNotFound)
      else
        (st.(tokens := Rotate(st, found.value, newText, f)),
         if f.sign then Failure else Granted(NewAccess(st.sessions[t.session].user, t.session, st.now), newText))
  }

  function Logout(st: State, session: nat, f: Faults): State {
    if f.active || session >= |st.sessions| || !Active(st.sessions[session], st.now) then st
    else
      var s := st.sessions[session];
      st.(sessions := if f.endSession then st.sessions else st.sessions[session := s.(revokedAt := Some(st.now))],
          tokens := if f.endToken then st.tokens else RevokeTokens(st.tokens, (t: Token) => t.session == session, st.now),
          marks := if session in f.unmarked then st.marks else MarkRevoked(st.marks, session, s.expiresAt, st.now))
  }

  // ---- The service as a program ---------------------------------------------------

  class AuthService {
    var state: State

    constructor (now: Time)
      ensures state == State(now, [], [], map[])
    {
      state := State(now, [], [], map[]);
    }

    method DoLogin(user: Option<nat>, passwordOk: bool, text: string, f: Faults) returns (r: Reply)
      modifies this
      ensures (state, r) == Login(old(state), user, passwordOk, text, f)
    {
      if f.find { return Failure; }
      if user.None? { return InvalidCredentials; }
      if !passwordOk { return InvalidCredentials; }
      var expiry, s := state.now + WEEK, |state.sessions|;
      if f.newSession { return Failure; }
      state := state.(sessions := state.sessions + [Session(user.value, state.now, expiry, None)]);
      if f.newToken { return Failure; }
      state := state.(tokens := state.tokens + [Token(s, user.value, text, expiry, None, None)]);
      if f.sign { return Failure; }
      return Granted(NewAccess(user.value, s, state.now), text);
    }

    method DoLogoutAll(user: nat, f: Faults) returns (ok: bool)
      modifies this
      ensures state == LogoutAll(old(state), user, f)
      ensures ok == !f.active
    {
      if f.active { return false; }
      var before, now := state.sessions, state.now;
      if !f.endSession {
        state := state.(sessions := RevokeSessions(state.sessions, user, now));
      }
      if !f.endToken {
        state := state.(tokens := RevokeTokens(state.tokens, (t: Token) => t.user == user, now));
      }
      for i := 0 to |before|
        invariant state == LogoutAll(old(state), user, f).(marks := MarkActive(old(state).marks, before[..i], user, now, f.unmarked))
      {
        assert before[..i + 1][..i] == before[..i];
        if before[i].user == user && Active(before[i], now) && i !in f.unmarked {
          state := state.(marks := MarkRevoked(state.marks, i, before[i].expiresAt, now));
        }
      }
      assert before[..|before|] == before;
      return true;
    }

    method DoRefresh(text: string, userKnown: bool, newText: string, f: Faults) returns (r: Reply)
      modifies this
      ensures (state, r) == Refresh(old(state), text, userKnown, newText, f)
    {
      if text == "" || f.find { return InvalidRefreshToken; }
      var found := FindByText(state.tokens, text);
      if found.None? { return InvalidRefreshToken; }
      var id := found.value;
      var token := state.tokens[id];
      if token.revokedAt.Some? {
        var _ := DoLogoutAll(token.user, f);
        return InvalidRefreshToken;
      }
      if token.expiresAt < state.now { return InvalidRefreshToken; }
      if f.active || token.session >= |state.sessions| { return InvalidRefreshToken; }
      var session := state.sessions[token.session];
      if !Active(session, state.now) { return InvalidRefreshToken; }
      if !userKnown { return UserNotFound; }
      var now := state.now;
      var expiry := now + WEEK;
      if expiry > session.expiresAt { expiry := session.expiresAt; }
      var newId := NIL_ID;
      if !f.endToken {
        state := state.(tokens := state.tokens[id := state.tokens[id].(revokedAt := Some(now))]);
      }
      if !f.newToken {
        newId := |state.tokens|;
        state := state.(tokens := state.tokens + [Token(token.session, session.user, newText, expiry, None, None)]);
      }
      if !f.link {
        state := state.(tokens := state.tokens[id := state.tokens[id].(revokedAt := Some(now), replacedBy := Some(newId))]);
      }
      if f.sign { return Failure; }
      return Granted(NewAccess(session.user, token.session, now), newText);
    }

    /** `session` is none for a text that is not an id, which alone is an error. */
    method DoLogout(session: Option<nat>, f: Faults) returns (ok: bool)
      modifies this
      ensures ok == session.Some?
      ensures state == if ok then Logout(old(state), session.value, f) else old(state)
    {
      if session.None? { return false; }
      var id := session.value;
      if f.active || id >= |state.sessions| || !Active(state.sessions[id], state.now) { return true; }
      var s := state.sessions[id];
      if !f.endSession {
        state := state.(sessions := state.sessions[id := s.(revokedAt := Some(state.now))]);
      }
      if !f.endToken {
        state := state.(tokens := RevokeTokens(state.tokens, (t: Token) => t.session == id, state.now));
      }
      if id !in f.unmarked {
        state := state.(marks := MarkRevoked(state.marks, id, s.expiresAt, state.now));
      }
      return true;
    }
  }
}
