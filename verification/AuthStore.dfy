/** The auth store object: each method performs the matching operation of Accounts. */
module AuthStore {
  import opened Accounts

  class Store {
    var users: map<string, User>
    var tokens: map<string, ApiToken>
    var sessions: map<string, Session>
    const ttl: int

    ghost function View(): State
      reads this
    {
      State(users, tokens, sessions)
    }

    /** A store over the tables as they are: a fresh start, or a restart. */
    constructor (users: map<string, User>, tokens: map<string, ApiToken>, ttl: int)
      ensures forall before :: View() == Restart(State(users, tokens, before)).0
      ensures this.ttl == ttl
    {
      this.users, this.tokens, sessions := users, tokens, map[];
      this.ttl := ttl;
    }

    /** The first start creates the administrator. */
    method Bootstrap(id: string, pw: string) returns (created: bool)
      modifies this`users
      ensures View() == BootstrapAdmin(old(View()), id, pw).0 && created == (old(users) == map[])
    {
      if users != map[] { return false; }
      users := users[id := User("admin", Superadmin, false, false, pw, true)];
      created := true;
    }

    /** A new user row; the unique index on names refuses a second one. */
    method AddUser(id: string, username: string, password: string, nonce: string, role: Role, apiOnly: bool)
      returns (out: Outcome)
      modifies this`users
      ensures (View(), out) == CreateUser(old(View()), id, username, password, nonce, role, apiOnly)
    {
      if !apiOnly && password == "" { return Refused(EmptyPassword); }
      if exists i :: i in users && users[i].username == username { return Refused(Duplicate); }
      var secret := if apiOnly then nonce else password;
      users := users[id := User(username, NormaliseRole(role), false, apiOnly, secret, false)];
      out := Done;
    }

    method AddToken(userId: string, tokenId: string, raw: string) returns (out: Outcome)
      modifies this`tokens
      ensures (View(), out) == CreateAPIToken(old(View()), userId, tokenId, raw)
    {
      if userId !in users { return Refused(NotFound); }
      if users[userId].disabled { return Refused(UserDisabled); }
      if !users[userId].apiOnly { return Refused(NotAPIOnly); }
      tokens := tokens[tokenId := ApiToken(userId, raw)];
      out := Done;
    }

    /** dropSessions: delete the entries that match while walking the map. */
    method DropSessions(match': Session -> bool)
      modifies this`sessions
      ensures sessions == map t | t in old(sessions) && !match'(old(sessions)[t]) :: old(sessions)[t]
    {
      ghost var before := sessions;
      var todo := sessions.Keys;
      while todo != {}
        invariant todo <= sessions.Keys <= before.Keys
        invariant forall t :: t in sessions ==> sessions[t] == before[t]
        invariant forall t :: t in before && t !in todo ==> (t in sessions <==> !match'(before[t]))
        decreases |todo|
      {
        var t :| t in todo;
        todo := todo - {t};
        if match'(sessions[t]) { sessions := sessions - {t}; }
      }
    }

    method IssueSession(id: string, u: User, mustChange: bool, tok: string, now: int) returns (sess: Session)
      modifies this`sessions
      ensures sess == SessionFor(id, u, mustChange, now + ttl) && sessions == old(sessions)[tok := sess]
    {
      sess := Session(id, u.username, u.role, u.apiOnly, now + ttl, mustChange);
      sessions := sessions[tok := sess];
    }

    method Delete(id: string) returns (out: Outcome)
      modifies this
      ensures (View(), out) == DeleteUser(old(View()), id)
    {
      out := Guard(id);
      if out.Refused? { return; }
      users := users - {id};
      tokens := DropTokens(tokens, id);
      DropSessions((s: Session) => s.userId == id);
      assert sessions == DropUser(old(sessions), id);
      assert tokens == DeleteUser(old(View()), id).0.tokens;
    }

    method Guard(id: string) returns (out: Outcome)
      ensures out == GuardLastAdmin(View(), id)
    {
      if id !in users { return Refused(NotFound); }
      var admins := set i | i in users && AdminRole(users[i].role) && !users[i].disabled;
      assert admins == EnabledAdmins(View());
      if AdminRole(users[id].role) && !users[id].disabled && |admins| <= 1 {
        return Refused(LastAdmin);
      }
      out := Done;
    }

    method ChangeRole(id: string, role: Role) returns (out: Outcome)
      modifies this`users, this`sessions
      ensures (View(), out) == SetRole(old(View()), id, role)
    {
      var r := NormaliseRole(role);
      if r.Viewer? {
        out := Guard(id);
        if out.Refused? { return; }
      }
      if id !in users { return Refused(NotFound); }
      users := users[id := users[id].(role := r)];
      DropSessions((s: Session) => s.userId == id);
      assert sessions == DropUser(old(sessions), id);
      out := Done;
    }

    method Disable(id: string, disabled: bool) returns (out: Outcome)
      modifies this`users, this`sessions
      ensures (View(), out) == SetDisabled(old(View()), id, disabled)
    {
      if disabled {
        out := Guard(id);
        if out.Refused? { return; }
      }
      if id !in users { return Refused(NotFound); }
      users := users[id := users[id].(disabled := disabled)];
      if disabled {
        DropSessions((s: Session) => s.userId == id);
        assert sessions == DropUser(old(sessions), id);
      }
      out := Done;
    }

    method ResetPassword(id: string, pw: string) returns (out: Outcome)
      modifies this`users, this`sessions
      ensures (View(), out) == SetPassword(old(View()), id, pw)
    {
      if pw == "" { return Refused(EmptyPassword); }
      if id !in users { return Refused(NotFound); }
      if users[id].apiOnly { return Refused(APIOnlyPassword); }
      users := users[id := users[id].(secret := pw)];
      DropSessions((s: Session) => s.userId == id);
      assert sessions == DropUser(old(sessions), id);
      out := Done;
    }

    method Revoke(tokenId: string) returns (out: Outcome)
      modifies this`tokens, this`sessions
      ensures (View(), out) == RevokeAPIToken(old(View()), tokenId)
    {
      if tokenId !in tokens { return Refused(NotFound); }
      tokens := tokens - {tokenId};
      DropSessions((s: Session) => s.apiOnly);
      assert sessions == DropApiOnly(old(sessions));
      out := Done;
    }

    method ChangePassword(userId: string, current: string, next: string, tok: string, now: int) returns (out: Outcome)
      modifies this`users, this`sessions
      ensures (View(), out) == ChangeOwnPassword(old(View()), userId, current, next, tok, now + ttl)
    {
      if |next| < MIN_PASSWORD { return Refused(TooShort); }
      if userId !in users { return Refused(NotFound); }
      var u := users[userId];
      if u.apiOnly { return Refused(APIOnlyPassword); }
      if u.secret != current { return Refused(InvalidCredentials); }
      u := u.(secret := next, mustChange := false);
      users := users[userId := u];
      DropSessions((s: Session) => s.userId == userId);
      assert sessions == DropUser(old(sessions), userId);
      var sess := IssueSession(userId, u, false, tok, now);
      out := Issued(tok, sess);
    }

    /** Login reads the one row with the username, then checks it field by field. */
    method SignIn(username: string, password: string, tok: string, now: int) returns (out: Outcome)
      requires UniqueNames(View())
      modifies this`sessions
      ensures (View(), out) == Login(old(View()), username, password, tok, now + ttl)
      ensures out.Issued? <==> exists id :: id in users && users[id].username == username
                                            && users[id].secret == password && !users[id].disabled && !users[id].apiOnly
    {
      var found := set id | id in users && users[id].username == username;
      assert forall i :: i in users && users[i].username == username ==> i in found;
      if found == {} { return Refused(InvalidCredentials); }
      var id :| id in found;
      var u := users[id];
      if u.disabled || u.apiOnly || u.secret != password {
        assert forall i :: i in users && MayLogin(users[i], username, password) ==> i == id;
        return Refused(InvalidCredentials);
      }
      assert MayLogin(users[id], username, password);
      var sess := IssueSession(id, u, u.mustChange, tok, now);
      out := Issued(tok, sess);
    }

    method ValidateToken(tok: string, now: int) returns (out: Outcome)
      modifies this`sessions
      ensures (View(), out) == Validate(old(View()), tok, now)
    {
      if tok !in sessions { return Refused(Unauthorized); }
      if now > sessions[tok].expiresAt {
        sessions := sessions - {tok};
        return Refused(Unauthorized);
      }
      out := Issued(tok, sessions[tok]);
    }

    /** resolveBearer: walk the token rows, in any order, for one that matches and whose user is enabled. */
    method ResolveBearer(raw: string) returns (found: bool, tid: string)
      ensures found ==> tid in tokens && BearerMatches(View(), tid, raw)
      ensures !found ==> forall t :: t in tokens ==> !BearerMatches(View(), t, raw)
    {
      var todo := tokens.Keys;
      found, tid := false, "";
      while todo != {}
        invariant todo <= tokens.Keys && !found
        invariant forall t :: t in tokens && t !in todo ==> !BearerMatches(View(), t, raw)
        decreases |todo|
      {
        var t :| t in todo;
        todo := todo - {t};
        var userId := tokens[t].userId;
        if userId in users && !users[userId].disabled && tokens[t].raw == raw {
          return true, t;
        }
      }
    }

    method Middleware(tok: string, bearer: bool, now: int) returns (out: Outcome)
      requires UniqueRaws(View())
      modifies this`sessions
      ensures (View(), out) == Authorize(old(View()), tok, bearer, now)
    {
      ghost var before := View();
      out := ValidateToken(tok, now);
      if out.Refused? && bearer {
        var found, tid := ResolveBearer(tok);
        if found {
          assert BearerMatches(before, tid, tok);
          assert forall t :: t in before.tokens && BearerMatches(before, t, tok) ==> t == tid;
          var id := tokens[tid].userId;
          var sess := Session(id, users[id].username, users[id].role, users[id].apiOnly, now + BEARER_TTL, false);
          sessions := sessions[tok := sess];
          out := Issued(tok, sess);
        } else {
          assert forall t :: t in before.tokens ==> !BearerMatches(before, t, tok);
        }
      }
    }

    method SweepExpired(cutoff: int)
      modifies this`sessions
      ensures View() == Sweep(old(View()), cutoff).0
    {
      DropSessions((s: Session) => cutoff > s.expiresAt);
    }
  }
}
