/** What every request to the auth store does, on the rows and sessions themselves, and what follows over whole runs:
    which password signs in, which session passes, who stays an administrator. */
module AccountHistory {
  import opened Accounts
  import opened AccountProofs

  // ---- Signing in ------------------------------------------------------------------------------------

  /** The row belongs to that name and secret, is enabled and signs in with a password. */
  ghost predicate Admits(u: User, username: string, password: string) {
    u.username == username && u.secret == password && !u.disabled && !u.apiOnly
  }

  /** Main result: signing in works exactly when some row admits the name and password; the session speaks for that row,
      and nothing else changes. */
  lemma SignInExactly(s: State, username: string, password: string, tok: string, expiresAt: int)
    requires UniqueNames(s)
    ensures var (s', out) := Perform(s, OpLogin(username, password, tok, expiresAt));
            && (out.Issued? <==> exists id :: id in s.users && Admits(s.users[id], username, password))
            && (forall id :: id in s.users && Admits(s.users[id], username, password) ==>
                  var sess := Session(id, username, s.users[id].role, false, expiresAt, s.users[id].mustChange);
                  out == Issued(tok, sess) && s' == State(s.users, s.tokens, s.sessions[tok := sess]))
            && (!out.Issued? ==> out == Refused(InvalidCredentials) && s' == s)
  {
    forall id | id in s.users
      ensures MayLogin(s.users[id], username, password) <==> Admits(s.users[id], username, password)
    {
    }
    if id :| id in s.users && Admits(s.users[id], username, password) {
      assert MayLogin(s.users[id], username, password);
    }
  }

  // ---- The rows --------------------------------------------------------------------------------------

  predicate Administers(r: Role) { r == Superadmin || r == Admin }

  /** The operation, with its answer, is a change of the user's own password. */
  predicate OwnChange(op: Op, out: Outcome, id: string) {
    op.OpChangePassword? && out.Issued? && out.session.userId == id
  }

  predicate SetsPassword(op: Op, out: Outcome, id: string) {
    (op.OpSetPassword? && op.id == id && out.Done?) || OwnChange(op, out, id)
  }

  function PasswordOf(op: Op): string
    requires op.OpSetPassword? || op.OpChangePassword?
  {
    if op.OpSetPassword? then op.pw else op.next
  }

  predicate SetsRole(op: Op, out: Outcome, id: string) { op.OpSetRole? && op.id == id && out.Done? }

  predicate SetsFlag(op: Op, out: Outcome, id: string) { op.OpSetDisabled? && op.id == id && out.Done? }

  predicate Removes(op: Op, out: Outcome, id: string) { op.OpDeleteUser? && op.id == id && out.Done? }

  /** The row of user id after an operation that was answered by `out`. */
  function RowAfter(u: User, op: Op, out: Outcome, id: string): User {
    User(u.username,
         if SetsRole(op, out, id) then (if Administers(op.role) then Admin else Viewer) else u.role,
         if SetsFlag(op, out, id) then op.disabled else u.disabled,
         u.apiOnly,
         if SetsPassword(op, out, id) then PasswordOf(op) else u.secret,
         u.mustChange && !OwnChange(op, out, id))
  }

  /** No other operation touches a row: names and kinds of accounts stay, and role, flag and password are set by the
      operations that are for it. */
  lemma RowFollows(s: State, op: Op, id: string)
    requires FreshValues(s, op) && id in s.users
    ensures var (s', out) := Perform(s, op);
            && (id in s'.users <==> !Removes(op, out, id))
            && (id in s'.users ==> s'.users[id] == RowAfter(s.users[id], op, out, id))
            && (SetsPassword(op, out, id) ==> !s.users[id].apiOnly)
  {
    match op {
      case OpChangePassword(_, _, _, _, _, _, _) => OwnChangeRow(s, op, id);
      case OpRequest(tok, bearer, now) => AuthorizeKeepsUsers(s, tok, bearer, now);
      case _ =>
    }
  }

  lemma OwnChangeRow(s: State, op: Op, id: string)
    requires op.OpChangePassword? && id in s.users
    ensures var (s', out) := Perform(s, op);
            && id in s'.users && s'.users[id] == RowAfter(s.users[id], op, out, id)
            && (OwnChange(op, out, id) ==> !s.users[id].apiOnly)
  {
    AuthorizeKeepsUsers(s, op.caller, op.bearer, op.now);
    var (a, pass) := Authorize(s, op.caller, op.bearer, op.now);
    if pass.Issued? {
      assert Perform(s, op) == ChangeOwnPassword(a, pass.session.userId, op.current, op.next, op.tok, op.expiresAt);
    }
  }


  /** New rows come from creation and from the first start alone, and always then. */
  lemma RowAppears(s: State, op: Op, id: string)
    requires FreshValues(s, op) && id !in s.users
    ensures var (s', out) := Perform(s, op);
            && (id in s'.users <==>
                  (op.OpCreateUser? && op.id == id && out.Done?) || (op.OpBootstrap? && op.id == id
                    && s.users == map[]))
            && (op.OpCreateUser? && id in s'.users ==>
                  s'.users[id] == User(op.username, if Administers(op.role) then Admin else Viewer, false, op.apiOnly,
                                       if op.apiOnly then op.nonce else op.password, false))
            && (op.OpBootstrap? && id in s'.users ==>
              s'.users[id] == User("admin", Superadmin, false, false, op.pw, true))
  {
    match op {
      case OpChangePassword(caller, bearer, now, _, _, _, _) => AuthorizeKeepsUsers(s, caller, bearer, now);
      case OpRequest(tok, bearer, now) => AuthorizeKeepsUsers(s, tok, bearer, now);
      case _ =>
    }
  }

  // ---- Which operations go through -------------------------------------------------------------------

  /** Some other row is an enabled administrator's. */
  ghost predicate AnotherAdmin(s: State, id: string) {
    exists i :: i in s.users && i != id && Administers(s.users[i].role) && !s.users[i].disabled
  }

  /** Taking the administrator's standing from this user leaves none. */
  ghost predicate LastStanding(s: State, id: string) {
    id in s.users && Administers(s.users[id].role) && !s.users[id].disabled && !AnotherAdmin(s, id)
  }

  lemma GuardExactly(s: State, id: string)
    ensures GuardLastAdmin(s, id) ==
            if id !in s.users then Refused(NotFound) else if LastStanding(s, id) then Refused(LastAdmin) else Done
  {
    var admins := EnabledAdmins(s);
    if id in admins {
      if i :| i in s.users && i != id && Administers(s.users[i].role) && !s.users[i].disabled {
        assert {i, id} <= admins;
        Larger({i, id}, admins);
      } else {
        assert admins == {id};
      }
    }
  }

  lemma {:induction false} Larger<T>(a: set<T>, b: set<T>)
    requires a <= b
    ensures |a| <= |b|
  {
    assert b == a + (b - a);
  }

  /** When an administrator's operation goes through. Nobody deletes, demotes or disables the last administrator. */
  lemma AdminExactly(s: State, op: Op)
    ensures op.OpDeleteUser? ==> (Perform(s, op).1.Done? <==> op.id in s.users && !LastStanding(s, op.id))
    ensures op.OpSetRole? ==>
              (Perform(s, op).1.Done? <==> op.id in s.users && (Administers(op.role) || !LastStanding(s, op.id)))
    ensures op.OpSetDisabled? ==>
              (Perform(s, op).1.Done? <==> op.id in s.users && (op.disabled ==> !LastStanding(s, op.id)))
    ensures op.OpSetPassword? ==>
              (Perform(s, op).1.Done? <==> op.id in s.users && op.pw != "" && !s.users[op.id].apiOnly)
    ensures op.OpCreateUser? ==>
              (Perform(s, op).1.Done? <==>
                 (op.apiOnly || op.password != "") && forall i :: i in s.users ==> s.users[i].username != op.username)
    ensures op.OpCreateToken? ==>
              (Perform(s, op).1.Done? <==>
                op.userId in s.users && !s.users[op.userId].disabled && s.users[op.userId].apiOnly)
    ensures op.OpRevokeToken? ==> (Perform(s, op).1.Done? <==> op.tokenId in s.tokens)
  {
    if op.OpDeleteUser? || op.OpSetRole? || op.OpSetDisabled? { GuardExactly(s, op.id); }
  }

  /** API tokens come and go with their own operations and with their users. */
  lemma TokensFollow(s: State, op: Op, tokenId: string)
    requires FreshValues(s, op)
    ensures var (s', out) := Perform(s, op);
            && (tokenId in s'.tokens <==>
                  || (op.OpCreateToken? && op.tokenId == tokenId && out.Done?)
                  || (tokenId in s.tokens && !(op.OpRevokeToken? && op.tokenId == tokenId)
                      && !Removes(op, out, s.tokens[tokenId].userId)))
            && (tokenId in s'.tokens ==>
                  s'.tokens[tokenId] == if tokenId in s.tokens then s.tokens[tokenId] else ApiToken(op.userId, op.raw))
  {
    match op {
      case OpChangePassword(caller, bearer, now, _, _, _, _) => AuthorizeKeepsUsers(s, caller, bearer, now);
      case OpRequest(tok, bearer, now) => AuthorizeKeepsUsers(s, tok, bearer, now);
      case _ =>
    }
  }

  // ---- Sessions --------------------------------------------------------------------------------------

  /** A row of the token table lets the bearer in. */
  ghost predicate Bears(s: State, tok: string, tid: string) {
    && tid in s.tokens && s.tokens[tid].raw == tok
    && s.tokens[tid].userId in s.users && !s.users[s.tokens[tid].userId].disabled
  }

  ghost predicate Live(s: State, tok: string, now: int) { tok in s.sessions && now <= s.sessions[tok].expiresAt }

  /** A request passes exactly with a live session or, as a bearer, with a token of an enabled user;
    then as that session,
      or as one for the token's user that lasts five minutes. */
  lemma RequestExactly(s: State, tok: string, bearer: bool, now: int)
    requires Inv(s)
    ensures var (s', out) := Perform(s, OpRequest(tok, bearer, now));
            && (out.Issued? <==> Live(s, tok, now) || (bearer && exists tid :: Bears(s, tok, tid)))
            && (Live(s, tok, now) ==> out == Issued(tok, s.sessions[tok]) && s' == s)
            && (!Live(s, tok, now) && bearer ==> forall tid :: Bears(s, tok, tid) ==>
                  var id := s.tokens[tid].userId;
                  out == Issued(tok, Session(id, s.users[id].username, s.users[id].role, true, now + 300, false)))
            && (!out.Issued? ==> out == Refused(Unauthorized) && s' == s.(sessions := s.sessions - {tok}))
  {
    forall tid | tid in s.tokens ensures BearerMatches(s, tid, tok) <==> Bears(s, tok, tid) {}
    if tid :| Bears(s, tok, tid) { assert BearerMatches(s, tid, tok); }
    if tok !in s.sessions { assert s.sessions - {tok} == s.sessions; }
  }

  /** A password change goes through exactly for a live caller who knows the present password and picks a new one of
      twelve characters or more; it opens a session in which nothing more need be changed. */
  lemma OwnChangeExactly(s: State, op: Op)
    requires Inv(s) && op.OpChangePassword?
    ensures var (a, pass) := Perform(s, OpRequest(op.caller, op.bearer, op.now));
            var (s', out) := Perform(s, op);
            && (out.Issued? <==>
                  && pass.Issued? && !pass.session.apiOnly
                  && |op.next| >= 12 && s.users[pass.session.userId].secret == op.current)
            && (out.Issued? ==>
                  var id := pass.session.userId;
                  out ==
                    Issued(op.tok, Session(id, s.users[id].username, s.users[id].role, false, op.expiresAt, false)))
  {
    AuthorizeSafe(s, op.caller, op.bearer, op.now);
    AuthorizeFrame(s, op.caller, op.bearer, op.now);
    var (a, pass) := Authorize(s, op.caller, op.bearer, op.now);
    if pass.Issued? { assert Current(a, a.sessions[op.caller]); }
  }

  /** A browser session is in the map. */
  ghost predicate Holds(s: State, t: string, sess: Session) {
    t in s.sessions && s.sessions[t] == sess && !sess.apiOnly
  }

  /** Signing in and changing one's password open a browser session. */
  predicate Opens(op: Op, out: Outcome, t: string, sess: Session) {
    (op.OpLogin? || op.OpChangePassword?) && out == Issued(t, sess)
  }

  /** The request carries token t after its session has run out. */
  predicate Late(op: Op, t: string, sess: Session) {
    || (op.OpRequest? && op.tok == t && op.now > sess.expiresAt)
    || (op.OpChangePassword? && op.caller == t && op.now > sess.expiresAt)
  }

  /** What ends a browser session: signing out; its user deleted, disabled,
    given another role or another password; a late
      request or a sweep after it has run out; another session under the same token; a new process. */
  predicate Ends(op: Op, out: Outcome, t: string, sess: Session) {
    || (op.OpLogout? && op.tok == t)
    || Removes(op, out, sess.userId)
    || (SetsFlag(op, out, sess.userId) && op.disabled)
    || SetsRole(op, out, sess.userId)
    || SetsPassword(op, out, sess.userId)
    || Late(op, t, sess)
    || (op.OpSweep? && sess.expiresAt < op.cutoff)
    || ((op.OpLogin? || op.OpChangePassword?) && out.Issued? && out.token == t)
    || op.OpRestart?
  }

  /** One operation: a browser session is there afterwards exactly if the operation opened it, or it was there and the
      operation does not end it. */
  lemma SessionFollows(s: State, op: Op, t: string, sess: Session)
    requires Inv(s) && FreshValues(s, op)
    ensures var (s', out) := Perform(s, op);
            Holds(s', t, sess) <==> Opens(op, out, t, sess) || (Holds(s, t, sess) && !Ends(op, out, t, sess))
  {
    match op {
      case OpRequest(tok, bearer, now) => RequestFollows(s, tok, bearer, now, t, sess);
      case OpChangePassword(caller, bearer, now, _, _, _, _) =>
        RequestFollows(s, caller, bearer, now, t, sess);
        OwnChangeFollows(s, op, t, sess);
      case OpLogin(_, _, _, _) => LoginFollows(s, op, t, sess);
      case _ => OtherFollows(s, op, t, sess);
    }
  }

  lemma LoginFollows(s: State, op: Op, t: string, sess: Session)
    requires Inv(s) && op.OpLogin?
    ensures var (s', out) := Perform(s, op);
            Holds(s', t, sess) <==> Opens(op, out, t, sess) || (Holds(s, t, sess) && !Ends(op, out, t, sess))
  {
    SignInExactly(s, op.username, op.password, op.tok, op.expiresAt);
  }

  lemma OtherFollows(s: State, op: Op, t: string, sess: Session)
    requires Inv(s) && FreshValues(s, op) && !op.OpLogin? && !op.OpRequest? && !op.OpChangePassword?
    ensures var (s', out) := Perform(s, op);
            Holds(s', t, sess) <==> Opens(op, out, t, sess) || (Holds(s, t, sess) && !Ends(op, out, t, sess))
  {
    if op.OpDeleteUser? || op.OpSetPassword? {
      RemovalFollows(s, op, t, sess);
    } else if op.OpSetRole? || op.OpSetDisabled? {
      StandingFollows(s, op, t, sess);
    } else {
      RestFollows(s, op, t, sess);
    }
  }

  lemma RemovalFollows(s: State, op: Op, t: string, sess: Session)
    requires op.OpDeleteUser? || op.OpSetPassword?
    ensures var (s', out) := Perform(s, op);
            Holds(s', t, sess) <==> Opens(op, out, t, sess) || (Holds(s, t, sess) && !Ends(op, out, t, sess))
  {
  }

  lemma StandingFollows(s: State, op: Op, t: string, sess: Session)
    requires op.OpSetRole? || op.OpSetDisabled?
    ensures var (s', out) := Perform(s, op);
            Holds(s', t, sess) <==> Opens(op, out, t, sess) || (Holds(s, t, sess) && !Ends(op, out, t, sess))
  {
  }

  lemma RestFollows(s: State, op: Op, t: string, sess: Session)
    requires op.OpBootstrap? || op.OpCreateUser? || op.OpCreateToken? || op.OpRevokeToken? || op.OpLogout?
             || op.OpSweep? || op.OpRestart?
    ensures var (s', out) := Perform(s, op);
            Holds(s', t, sess) <==> Opens(op, out, t, sess) || (Holds(s, t, sess) && !Ends(op, out, t, sess))
  {
  }

  lemma RequestFollows(s: State, tok: string, bearer: bool, now: int, t: string, sess: Session)
    requires Inv(s)
    ensures var s' := Authorize(s, tok, bearer, now).0;
            Holds(s', t, sess) <==> Holds(s, t, sess) && !(tok == t && now > sess.expiresAt)
  {
    RequestExactly(s, tok, bearer, now);
    AuthorizeFrame(s, tok, bearer, now);
  }

  lemma OwnChangeFollows(s: State, op: Op, t: string, sess: Session)
    requires Inv(s) && op.OpChangePassword?
    requires var a := Authorize(s, op.caller, op.bearer, op.now).0;
             Holds(a, t, sess) <==> Holds(s, t, sess) && !(op.caller == t && op.now > sess.expiresAt)
    ensures var (s', out) := Perform(s, op);
            Holds(s', t, sess) <==> Opens(op, out, t, sess) || (Holds(s, t, sess) && !Ends(op, out, t, sess))
  {
    var (a, pass) := Authorize(s, op.caller, op.bearer, op.now);
    OwnChangeExactly(s, op);
    if pass.Issued? {
      var out := ChangeOwnPassword(a, pass.session.userId, op.current, op.next, op.tok, op.expiresAt).1;
      ChangedSessions(a, pass.session.userId, op.current, op.next, op.tok, op.expiresAt, t, sess);
      assert Perform(s, op) == ChangeOwnPassword(a, pass.session.userId, op.current, op.next, op.tok, op.expiresAt);
    }
  }

  /** The change itself drops the user's sessions and opens one. */
  lemma ChangedSessions(a: State, id: string, current: string, next: string, tok: string, expiresAt: int, t: string,
                        sess: Session)
    ensures var (s', out) := ChangeOwnPassword(a, id, current, next, tok, expiresAt);
            && (out.Issued? ==> out.token == tok && out.session.userId == id && !out.session.apiOnly)
            && (Holds(s', t, sess) <==>
                  if out.Issued? then out == Issued(t, sess) || (Holds(a, t, sess) && sess.userId != id && t != tok)
                  else Holds(a, t, sess))
  {
  }

  // ---- Whole runs ------------------------------------------------------------------------------------

  ghost function Out(ops: seq<Op>, states: seq<State>, k: nat): Outcome
    requires k < |ops| && k < |states|
  {
    Perform(states[k], ops[k]).1
  }

  /** Step m opened the session under token t, and no later step before n ended it. */
  ghost predicate OpenSince(ops: seq<Op>, states: seq<State>, m: nat, n: nat, t: string, sess: Session)
    requires m < n <= |ops| && n <= |states|
  {
    && Opens(ops[m], Out(ops, states, m), t, sess) && !sess.apiOnly
    && forall k :: m < k < n ==> !Ends(ops[k], Out(ops, states, k), t, sess)
  }

  /** The session is open before step n. */
  ghost predicate Open(ops: seq<Op>, states: seq<State>, n: nat, t: string, sess: Session)
    requires n <= |ops| && n <= |states|
  {
    exists m :: 0 <= m < n && OpenSince(ops, states, m, n, t, sess)
  }

  lemma OpenStep(ops: seq<Op>, states: seq<State>, p: nat, t: string, sess: Session)
    requires p < |ops| && p < |states| && (Opens(ops[p], Out(ops, states, p), t, sess) ==> !sess.apiOnly)
    ensures var op, out := ops[p], Out(ops, states, p);
            Open(ops, states, p + 1, t, sess) <==>
              Opens(op, out, t, sess) || (!Ends(op, out, t, sess) && Open(ops, states, p, t, sess))
  {
    var n := p + 1;
    if Opens(ops[p], Out(ops, states, p), t, sess) { assert OpenSince(ops, states, p, n, t, sess); }
    if m :| 0 <= m < p && OpenSince(ops, states, m, p, t, sess) {
      if !Ends(ops[p], Out(ops, states, p), t, sess) { assert OpenSince(ops, states, m, n, t, sess); }
    }
    if m :| 0 <= m < n && OpenSince(ops, states, m, n, t, sess) {
      if m < p { assert OpenSince(ops, states, m, p, t, sess); }
    }
  }

  lemma HoldsStep(ops: seq<Op>, states: seq<State>, p: nat, t: string, sess: Session)
    requires IsRun(ops, states) && p < |ops|
    ensures var op, out := ops[p], Out(ops, states, p);
            && (Holds(states[p + 1], t, sess) <==>
              Opens(op, out, t, sess) || (Holds(states[p], t, sess) && !Ends(op, out, t, sess)))
            && (Opens(op, out, t, sess) ==> !sess.apiOnly)
  {
    SessionsNeverStale(ops, states, p);
    SessionFollows(states[p], ops[p], t, sess);
    if Opens(ops[p], Out(ops, states, p), t, sess) { OpensBrowser(states[p], ops[p], t, sess); }
  }

  lemma RunBounds(ops: seq<Op>, states: seq<State>)
    requires IsRun(ops, states)
    ensures |states| == |ops| + 1 && states[0].sessions == map[]
  {
  }

  /** Main result: in every run a browser session is there exactly if some step opened it and no later step ended it. */
  lemma {:induction false} SessionsAreHistory(ops: seq<Op>, states: seq<State>, n: nat, t: string, sess: Session)
    requires IsRun(ops, states) && n <= |ops|
    ensures Holds(states[n], t, sess) <==> Open(ops, states, n, t, sess)
  {
    RunBounds(ops, states);
    if n > 0 {
      SessionsAreHistory(ops, states, n - 1, t, sess);
      HoldsStep(ops, states, n - 1, t, sess);
      OpenStep(ops, states, n - 1, t, sess);
    }
  }

  lemma OpensBrowser(s: State, op: Op, t: string, sess: Session)
    requires Inv(s) && Opens(op, Perform(s, op).1, t, sess)
    ensures !sess.apiOnly
  {
    if op.OpLogin? {
      SignInExactly(s, op.username, op.password, op.tok, op.expiresAt);
    } else {
      OwnChangeExactly(s, op);
    }
  }

  /** So a request passes as a browser exactly under a token whose session was opened, not ended since, and has not run
      out. */
  lemma PassesExactly(ops: seq<Op>, states: seq<State>, n: nat, t: string, bearer: bool, now: int, sess: Session)
    requires IsRun(ops, states) && n <= |ops| && !sess.apiOnly
    ensures Perform(states[n], OpRequest(t, bearer, now)).1 == Issued(t, sess) <==>
            now <= sess.expiresAt && Open(ops, states, n, t, sess)
  {
    SessionsNeverStale(ops, states, n);
    SessionsAreHistory(ops, states, n, t, sess);
    RequestExactly(states[n], t, bearer, now);
  }

  /** Step m set the password of user id to pw, and until step n nobody set it again or deleted the user. */
  ghost predicate PasswordSince(ops: seq<Op>, states: seq<State>, m: nat, n: nat, id: string, pw: string)
    requires m < n <= |ops| && n <= |states|
  {
    && SetsPassword(ops[m], Out(ops, states, m), id) && PasswordOf(ops[m]) == pw
    && forall k :: m < k < n ==>
         !SetsPassword(ops[k], Out(ops, states, k), id) && !Removes(ops[k], Out(ops, states, k), id)
  }

  lemma {:induction false} PasswordStays(ops: seq<Op>, states: seq<State>, m: nat, n: nat, id: string, pw: string)
    requires IsRun(ops, states) && m < n <= |ops| && PasswordSince(ops, states, m, n, id, pw)
    ensures id in states[n].users && states[n].users[id].secret == pw && !states[n].users[id].apiOnly
    decreases n
  {
    SessionsNeverStale(ops, states, n - 1);
    if m < n - 1 {
      assert PasswordSince(ops, states, m, n - 1, id, pw);
      PasswordStays(ops, states, m, n - 1, id, pw);
    } else {
      SetterExists(states[m], ops[m], id);
    }
    RowFollows(states[n - 1], ops[n - 1], id);
  }

  lemma SetterExists(s: State, op: Op, id: string)
    requires Inv(s) && SetsPassword(op, Perform(s, op).1, id)
    ensures id in s.users
  {
    if op.OpChangePassword? {
      AuthorizeSafe(s, op.caller, op.bearer, op.now);
      AuthorizeFrame(s, op.caller, op.bearer, op.now);
    }
  }

  /** Main result: after a password was set, that password and no other signs its user in, for as long as the account is
      enabled and until the password is set again or the user deleted. */
  lemma OnlyNewPasswordSignsIn(ops: seq<Op>, states: seq<State>, m: nat, n: nat, id: string, pw: string,
                               attempt: string,
                               tok: string, expiresAt: int)
    requires IsRun(ops, states) && m < n <= |ops| && PasswordSince(ops, states, m, n, id, pw)
    ensures id in states[n].users
    ensures var u, out := states[n].users[id],
      Perform(states[n], OpLogin(states[n].users[id].username, attempt, tok, expiresAt)).1;
            && (out.Issued? <==> attempt == pw && !u.disabled)
            && (out.Issued? ==> out.token == tok && out.session.userId == id)
  {
    PasswordStays(ops, states, m, n, id, pw);
    SessionsNeverStale(ops, states, n);
    SignInExactly(states[n], states[n].users[id].username, attempt, tok, expiresAt);
  }

  // ---- Administrators ----------------------------------------------------------------------------------

  ghost predicate SomeAdmin(s: State) {
    exists i :: i in s.users && Administers(s.users[i].role) && !s.users[i].disabled
  }

  /** Once some row is an enabled administrator's, one always is. */
  lemma SomeAdminForever(ops: seq<Op>, states: seq<State>, m: nat, n: nat)
    requires IsRun(ops, states) && m <= n <= |ops| && SomeAdmin(states[m])
    ensures SomeAdmin(states[n])
  {
    var i :| i in states[m].users && Administers(states[m].users[i].role) && !states[m].users[i].disabled;
    assert i in EnabledAdmins(states[m]);
    AdminForever(ops, states, m, n);
    var j :| j in EnabledAdmins(states[n]);
    assert Administers(states[n].users[j].role);
  }
}
