/** Every sequence of auth operations keeps the session cache true to the user and token tables. */
module AccountProofs {
  import opened Accounts

  /** A token backs a session as long as the tokens of its user stay. */
  lemma StillBacked(s: State, s': State, tok: string, userId: string)
    requires Backed(s, tok, userId)
    requires forall tid :: tid in s.tokens && s.tokens[tid].userId == userId ==>
      tid in s'.tokens && s'.tokens[tid] == s.tokens[tid]
    ensures Backed(s', tok, userId)
  {
    var tid :| tid in s.tokens && s.tokens[tid] == ApiToken(userId, tok);
    assert tid in s'.tokens && s'.tokens[tid] == ApiToken(userId, tok);
  }

  /** Removing sessions is always safe. */
  lemma FewerSessions(s: State, s': State)
    requires Inv(s) && s' == s.(sessions := s'.sessions)
    requires forall t :: t in s'.sessions ==> t in s.sessions && s'.sessions[t] == s.sessions[t]
    ensures Inv(s')
  {
    forall t | t in s'.sessions
      ensures Current(s', s'.sessions[t]) && (s'.sessions[t].apiOnly ==> Backed(s', t, s'.sessions[t].userId))
    {
      if s.sessions[t].apiOnly { StillBacked(s, s', t, s.sessions[t].userId); }
    }
  }

  /** Changing one user's row is safe when that user's sessions go with it. */
  lemma ChangedUser(s: State, id: string, u: User)
    requires Inv(s) && id in s.users
    requires u.username == s.users[id].username && u.apiOnly == s.users[id].apiOnly && (u.apiOnly ==> !u.mustChange)
    ensures Inv(State(s.users[id := u], s.tokens, DropUser(s.sessions, id)))
  {
    var s' := State(s.users[id := u], s.tokens, DropUser(s.sessions, id));
    forall t | t in s'.sessions
      ensures Current(s', s'.sessions[t]) && (s'.sessions[t].apiOnly ==> Backed(s', t, s'.sessions[t].userId))
    {
      assert Current(s, s.sessions[t]);
      if s.sessions[t].apiOnly { StillBacked(s, s', t, s.sessions[t].userId); }
    }
  }

  /** Opening a session that is current, and backed if it is api-only, is safe. */
  lemma OpenedSession(s: State, tok: string, sess: Session)
    requires Inv(s) && Current(s, sess) && (sess.apiOnly ==> Backed(s, tok, sess.userId))
    ensures Inv(s.(sessions := s.sessions[tok := sess]))
  {
    var s' := s.(sessions := s.sessions[tok := sess]);
    forall t | t in s'.sessions && s'.sessions[t].apiOnly ensures Backed(s', t, s'.sessions[t].userId) {
      StillBacked(s, s', t, s'.sessions[t].userId);
    }
  }

  lemma AddedUser(s: State, id: string, u: User)
    requires Inv(s) && id !in s.users && (u.apiOnly ==> !u.mustChange)
    requires forall i :: i in s.users ==> s.users[i].username != u.username
    ensures Inv(s.(users := s.users[id := u]))
  {
    var s' := s.(users := s.users[id := u]);
    forall t | t in s'.sessions
      ensures Current(s', s'.sessions[t]) && (s'.sessions[t].apiOnly ==> Backed(s', t, s'.sessions[t].userId))
    {
      assert Current(s, s.sessions[t]);
      if s.sessions[t].apiOnly { StillBacked(s, s', t, s.sessions[t].userId); }
    }
  }

  lemma DeletedUser(s: State, id: string)
    requires Inv(s) && id in s.users
    ensures Inv(State(s.users - {id}, DropTokens(s.tokens, id), DropUser(s.sessions, id)))
  {
    var s' := State(s.users - {id}, DropTokens(s.tokens, id), DropUser(s.sessions, id));
    forall t | t in s'.sessions
      ensures Current(s', s'.sessions[t]) && (s'.sessions[t].apiOnly ==> Backed(s', t, s'.sessions[t].userId))
    {
      assert Current(s, s.sessions[t]);
      if s.sessions[t].apiOnly { StillBacked(s, s', t, s.sessions[t].userId); }
    }
  }

  lemma EnabledUser(s: State, id: string)
    requires Inv(s) && id in s.users && s.users[id].disabled
    ensures Inv(s.(users := s.users[id := s.users[id].(disabled := false)]))
  {
    assert DropUser(s.sessions, id) == s.sessions by {
      forall t | t in s.sessions ensures s.sessions[t].userId != id { assert Current(s, s.sessions[t]); }
    }
    ChangedUser(s, id, s.users[id].(disabled := false));
  }

  lemma TokenAdded(s: State, userId: string, tokenId: string, raw: string)
    requires Inv(s) && userId in s.users && s.users[userId].apiOnly
    requires tokenId !in s.tokens && forall tid :: tid in s.tokens ==> s.tokens[tid].raw != raw
    ensures Inv(s.(tokens := s.tokens[tokenId := ApiToken(userId, raw)]))
  {
    var s' := s.(tokens := s.tokens[tokenId := ApiToken(userId, raw)]);
    forall t | t in s'.sessions
      ensures Current(s', s'.sessions[t]) && (s'.sessions[t].apiOnly ==> Backed(s', t, s'.sessions[t].userId))
    {
      assert Current(s, s.sessions[t]);
      if s.sessions[t].apiOnly { StillBacked(s, s', t, s.sessions[t].userId); }
    }
  }

  /** Caching what a bearer token resolved to is safe. */
  lemma ResolvedSafe(v: State, tid: string, tok: string, now: int)
    requires Inv(v) && tid in v.tokens && BearerMatches(v, tid, tok)
    ensures var id := v.tokens[tid].userId;
            Inv(v.(sessions := v.sessions[tok := SessionFor(id, v.users[id], false, now + BEARER_TTL)]))
  {
    var id := v.tokens[tid].userId;
    assert v.tokens[tid] == ApiToken(id, tok);
    OpenedSession(v, tok, SessionFor(id, v.users[id], false, now + BEARER_TTL));
  }

  /** What a request leaves behind, but for the invariant. */
  lemma AuthorizeFrame(s: State, tok: string, bearer: bool, now: int)
    requires Inv(s)
    ensures var (s', out) := Authorize(s, tok, bearer, now);
            && s'.users == s.users && s'.tokens == s.tokens
            && (out.Issued? ==> out.token == tok && tok in s'.sessions && s'.sessions[tok] == out.session)
            && (forall t :: t in s'.sessions && t != tok ==> t in s.sessions && s'.sessions[t] == s.sessions[t])
            && (tok in s'.sessions && (tok !in s.sessions || s'.sessions[tok] != s.sessions[tok]) ==>
                  s'.sessions[tok].apiOnly)
  {
  }

  lemma AuthorizeSafe(s: State, tok: string, bearer: bool, now: int)
    requires Inv(s)
    ensures Inv(Authorize(s, tok, bearer, now).0)
  {
    var (v, out) := Validate(s, tok, now);
    FewerSessions(s, v);
    if !out.Issued? && bearer && exists tid :: tid in s.tokens && BearerMatches(s, tid, tok) {
      var tid :| tid in s.tokens && BearerMatches(s, tid, tok)
        && Authorize(s, tok, bearer, now).1.session.userId == s.tokens[tid].userId;
      ResolvedSafe(v, tid, tok, now);
    }
  }

  lemma LoginSafe(s: State, username: string, password: string, tok: string, expiresAt: int)
    requires Inv(s)
    ensures Inv(Login(s, username, password, tok, expiresAt).0)
  {
    if exists id :: id in s.users && MayLogin(s.users[id], username, password) {
      var sess := Login(s, username, password, tok, expiresAt).1.session;
      OpenedSession(s, tok, sess);
    }
  }

  lemma ChangePasswordSafe(s: State, userId: string, current: string, next: string, tok: string, expiresAt: int)
    requires Inv(s) && (userId in s.users ==> !s.users[userId].disabled)
    ensures Inv(ChangeOwnPassword(s, userId, current, next, tok, expiresAt).0)
  {
    if ChangeOwnPassword(s, userId, current, next, tok, expiresAt).1.Issued? {
      var u := s.users[userId].(secret := next, mustChange := false);
      ChangedUser(s, userId, u);
      OpenedSession(State(s.users[userId := u], s.tokens, DropUser(s.sessions, userId)), tok,
        SessionFor(userId, u, false, expiresAt));
    }
  }

  /** Main step: every operation keeps the invariant. */
  lemma PerformSafe(s: State, op: Op)
    requires Inv(s) && FreshValues(s, op)
    ensures Inv(Perform(s, op).0)
  {
    match op {
      case OpBootstrap(id, pw) =>
        if s.users == map[] { AddedUser(s, id, User("admin", Superadmin, false, false, pw, true)); }
      case OpCreateUser(id, username, password, nonce, role, apiOnly) =>
        if CreateUser(s, id, username, password, nonce, role, apiOnly).1.Done? {
          AddedUser(s, id,
            User(username, NormaliseRole(role), false, apiOnly, if apiOnly then nonce else password, false));
        }
      case OpDeleteUser(id) =>
        if !GuardLastAdmin(s, id).Refused? { DeletedUser(s, id); }
      case OpSetPassword(id, pw) =>
        if id in s.users { ChangedUser(s, id, s.users[id].(secret := pw)); }
      case OpSetRole(id, role) =>
        if id in s.users { ChangedUser(s, id, s.users[id].(role := NormaliseRole(role))); }
      case OpSetDisabled(id, disabled) =>
        if id in s.users {
          if disabled { ChangedUser(s, id, s.users[id].(disabled := true)); }
          else if s.users[id].disabled { EnabledUser(s, id); }
          else { assert s.users[id := s.users[id].(disabled := false)] == s.users; }
        }
      case OpCreateToken(userId, tokenId, raw) =>
        if CreateAPIToken(s, userId, tokenId, raw).1.Done? { TokenAdded(s, userId, tokenId, raw); }
      case OpRevokeToken(tokenId) =>
        if tokenId in s.tokens { RevokeSafe(s, tokenId); }
      case OpLogin(username, password, tok, expiresAt) =>
        LoginSafe(s, username, password, tok, expiresAt);
      case OpChangePassword(caller, bearer, now, current, next, tok, expiresAt) =>
        AuthorizeSafe(s, caller, bearer, now);
        AuthorizeFrame(s, caller, bearer, now);
        var (a, out) := Authorize(s, caller, bearer, now);
        if out.Issued? {
          assert Current(a, out.session);
          ChangePasswordSafe(a, out.session.userId, current, next, tok, expiresAt);
        }
      case OpLogout(tok) => FewerSessions(s, Logout(s, tok).0);
      case OpRequest(tok, bearer, now) => AuthorizeSafe(s, tok, bearer, now);
      case OpSweep(cutoff) => FewerSessions(s, Sweep(s, cutoff).0);
      case OpRestart => FewerSessions(s, Restart(s).0);
    }
  }

  lemma RevokeSafe(s: State, tokenId: string)
    requires Inv(s) && tokenId in s.tokens
    ensures Inv(RevokeAPIToken(s, tokenId).0)
  {
    var s' := RevokeAPIToken(s, tokenId).0;
    forall t | t in s'.sessions ensures Current(s', s'.sessions[t]) { assert Current(s, s.sessions[t]); }
  }

  // ---- Runs ------------------------------------------------------------------------------------------

  const EMPTY: State := State(map[], map[], map[])

  /** A sequential run from an empty database. */
  ghost predicate IsRun(ops: seq<Op>, states: seq<State>) {
    && |states| == |ops| + 1 && states[0] == EMPTY
    && forall i :: 0 <= i < |ops| ==> FreshValues(states[i], ops[i]) && states[i + 1] == Perform(states[i], ops[i]).0
  }

  /** Main result: after any number of operations every cached session names an existing enabled user with
      that user's current name, role, api-only and must-change flags, and every api-only session's token
      still exists. */
  lemma {:induction false} SessionsNeverStale(ops: seq<Op>, states: seq<State>, n: nat)
    requires IsRun(ops, states) && n <= |ops|
    ensures Inv(states[n])
  {
    if n > 0 {
      SessionsNeverStale(ops, states, n - 1);
      PerformSafe(states[n - 1], ops[n - 1]);
    }
  }

  /** Whoever passes the admin check is, at that moment, an enabled admin in the user table. */
  lemma AdminRequestIsAdmin(ops: seq<Op>, states: seq<State>, n: nat, tok: string, bearer: bool, now: int)
    requires IsRun(ops, states) && n <= |ops|
    requires var out := Authorize(states[n], tok, bearer, now).1; out.Issued? && NormaliseRole(out.session.role).Admin?
    ensures Authorize(states[n], tok, bearer, now).1.session.userId in EnabledAdmins(states[n])
  {
    SessionsNeverStale(ops, states, n);
    AuthorizeSafe(states[n], tok, bearer, now);
    AuthorizeFrame(states[n], tok, bearer, now);
    var (s', out) := Authorize(states[n], tok, bearer, now);
    assert Current(s', s'.sessions[tok]);
  }

  /** The guard leaves an admin standing, whoever is then removed, demoted or disabled. */
  lemma GuardLeavesAdmin(s: State, id: string, rest: set<string>)
    requires EnabledAdmins(s) != {} && !GuardLastAdmin(s, id).Refused?
    requires EnabledAdmins(s) - {id} <= rest
    ensures rest != {}
  {
    var admins := EnabledAdmins(s);
    if id in admins {
      assert |admins - {id}| == |admins| - 1;
      assert admins - {id} != {};
    } else {
      assert admins - {id} == admins;
    }
  }

  /** No operation removes the last enabled admin. */
  lemma AdminKept(s: State, op: Op)
    requires Inv(s) && FreshValues(s, op) && EnabledAdmins(s) != {}
    ensures EnabledAdmins(Perform(s, op).0) != {}
  {
    match op {
      case OpDeleteUser(id) => DeleteKeepsAdmin(s, id);
      case OpSetRole(id, role) => SetRoleKeepsAdmin(s, id, role);
      case OpSetDisabled(id, disabled) => SetDisabledKeepsAdmin(s, id, disabled);
      case _ => UnguardedKept(s, op);
    }
  }

  lemma PasswordKeepsAdmins(s: State, userId: string, current: string, next: string, tok: string, expiresAt: int)
    ensures EnabledAdmins(s) <= EnabledAdmins(ChangeOwnPassword(s, userId, current, next, tok, expiresAt).0)
  {
  }

  /** The other operations take nobody's admin standing away. */
  lemma UnguardedKept(s: State, op: Op)
    requires Inv(s) && FreshValues(s, op) && !op.OpDeleteUser? && !op.OpSetRole? && !op.OpSetDisabled?
    ensures EnabledAdmins(s) <= EnabledAdmins(Perform(s, op).0)
  {
    match op {
      case OpChangePassword(caller, bearer, now, current, next, tok, expiresAt) =>
        var a := Authorize(s, caller, bearer, now);
        AuthorizeKeepsUsers(s, caller, bearer, now);
        if a.1.Issued? { PasswordKeepsAdmins(a.0, a.1.session.userId, current, next, tok, expiresAt); }
      case OpRequest(tok, bearer, now) => AuthorizeKeepsUsers(s, tok, bearer, now);
      case _ =>
    }
  }

  lemma DeleteKeepsAdmin(s: State, id: string)
    requires EnabledAdmins(s) != {}
    ensures EnabledAdmins(DeleteUser(s, id).0) != {}
  {
    if !GuardLastAdmin(s, id).Refused? { GuardLeavesAdmin(s, id, EnabledAdmins(DeleteUser(s, id).0)); }
  }

  lemma SetRoleKeepsAdmin(s: State, id: string, role: Role)
    requires EnabledAdmins(s) != {}
    ensures EnabledAdmins(SetRole(s, id, role).0) != {}
  {
    var s' := SetRole(s, id, role).0;
    if NormaliseRole(role).Viewer? {
      if !GuardLastAdmin(s, id).Refused? { GuardLeavesAdmin(s, id, EnabledAdmins(s')); }
    } else {
      assert EnabledAdmins(s) <= EnabledAdmins(s');
    }
  }

  lemma SetDisabledKeepsAdmin(s: State, id: string, disabled: bool)
    requires EnabledAdmins(s) != {}
    ensures EnabledAdmins(SetDisabled(s, id, disabled).0) != {}
  {
    var s' := SetDisabled(s, id, disabled).0;
    if disabled {
      if !GuardLastAdmin(s, id).Refused? { GuardLeavesAdmin(s, id, EnabledAdmins(s')); }
    } else {
      assert EnabledAdmins(s) <= EnabledAdmins(s');
    }
  }

  /** Main result: once there is an enabled admin there always is one. */
  lemma {:induction false} AdminForever(ops: seq<Op>, states: seq<State>, m: nat, n: nat)
    requires IsRun(ops, states) && m <= n <= |ops| && EnabledAdmins(states[m]) != {}
    ensures EnabledAdmins(states[n]) != {}
    decreases n
  {
    if m < n {
      AdminForever(ops, states, m, n - 1);
      SessionsNeverStale(ops, states, n - 1);
      AdminKept(states[n - 1], ops[n - 1]);
    }
  }

  /** A password change ends every browser session opened under the old password: a session of that user
      that is there afterwards is the one the change itself issued. */
  lemma PasswordChangeEndsSessions(s: State, op: Op, id: string, t: string)
    requires Inv(s) && FreshValues(s, op)
    requires var s' := Perform(s, op).0;
             && id in s.users && id in s'.users && s'.users[id].secret != s.users[id].secret
             && t in s'.sessions && s'.sessions[t].userId == id
    ensures Perform(s, op).1 == Issued(t, Perform(s, op).0.sessions[t])
  {
    match op {
      case OpChangePassword(caller, bearer, now, current, next, tok, expiresAt) =>
        AuthorizeKeepsUsers(s, caller, bearer, now);
        var (a, out) := Authorize(s, caller, bearer, now);
        if out.Issued? { ChangeEndsSessions(a, out.session.userId, current, next, tok, expiresAt, id, t); }
      case OpRequest(tok, bearer, now) => AuthorizeKeepsUsers(s, tok, bearer, now);
      case _ => OthersChangeNoPassword(s, op, id, t);
    }
  }

  /** No other operation leaves a session behind for a user whose password it changed. */
  lemma OthersChangeNoPassword(s: State, op: Op, id: string, t: string)
    requires FreshValues(s, op) && !op.OpChangePassword? && !op.OpRequest?
    ensures var s' := Perform(s, op).0;
            id in s.users && id in s'.users && s'.users[id].secret != s.users[id].secret && t in s'.sessions ==>
              s'.sessions[t].userId != id
  {
  }

  lemma ChangeEndsSessions(s: State, userId: string, current: string, next: string, tok: string, expiresAt: int,
                           id: string, t: string)
    requires var s' := ChangeOwnPassword(s, userId, current, next, tok, expiresAt).0;
             && id in s.users && id in s'.users && s'.users[id].secret != s.users[id].secret
             && t in s'.sessions && s'.sessions[t].userId == id
    ensures var (s', out) := ChangeOwnPassword(s, userId, current, next, tok, expiresAt);
            out == Issued(t, s'.sessions[t])
  {
  }

  lemma AuthorizeKeepsUsers(s: State, tok: string, bearer: bool, now: int)
    ensures Authorize(s, tok, bearer, now).0.users == s.users
  {
  }

  /** ChangeOwnPassword itself never looks at the disabled flag. It keeps the invariant exactly when the
      account is enabled, which is what going through the middleware guarantees. */
  lemma ChangePasswordNeedsEnabled(s: State, userId: string, current: string, next: string, tok: string, expiresAt: int)
    requires Inv(s) && ChangeOwnPassword(s, userId, current, next, tok, expiresAt).1.Issued?
    ensures Inv(ChangeOwnPassword(s, userId, current, next, tok, expiresAt).0) <==> !s.users[userId].disabled
  {
    var s' := ChangeOwnPassword(s, userId, current, next, tok, expiresAt).0;
    if s.users[userId].disabled {
      assert !Current(s', s'.sessions[tok]);
    } else {
      ChangePasswordSafe(s, userId, current, next, tok, expiresAt);
    }
  }
}
