/** Users, API tokens and in-memory sessions as the auth store keeps them, one operation at a time.
    bcrypt is abstract: a stored hash matches exactly the secret it was made from. Random values, the
    clock and generated row ids are parameters. */
module Accounts {

  datatype Role = Superadmin | Admin | Operator | Viewer | Guest

  datatype User = User(username: string, role: Role, disabled: bool, apiOnly: bool, secret: string, mustChange: bool)

  datatype ApiToken = ApiToken(userId: string, raw: string)

  datatype Session = Session(
    userId: string, username: string, role: Role, apiOnly: bool, expiresAt: int, mustChange: bool)

  datatype State = State(users: map<string, User>, tokens: map<string, ApiToken>, sessions: map<string, Session>)

  datatype Error = InvalidCredentials | NotFound | LastAdmin | APIOnlyPassword | TooShort | EmptyPassword
    | UserDisabled | NotAPIOnly | Duplicate | Unauthorized

  datatype Outcome = Done | Issued(token: string, session: Session) | Refused(error: Error)

  const BEARER_TTL: int := 300
  const MIN_PASSWORD: nat := 12

  function NormaliseRole(r: Role): Role { if r.Superadmin? || r.Admin? then Admin else Viewer }

  predicate AdminRole(r: Role) { r.Superadmin? || r.Admin? }

  predicate EnabledAdmin(u: User) { AdminRole(u.role) && !u.disabled }

  function EnabledAdmins(s: State): set<string> { set id | id in s.users && EnabledAdmin(s.users[id]) }

  /** nil error, or why the target may not lose its admin standing. */
  function GuardLastAdmin(s: State, id: string): Outcome {
    if id !in s.users then Refused(NotFound)
    else if EnabledAdmin(s.users[id]) && |EnabledAdmins(s)| <= 1 then Refused(LastAdmin)
    else Done
  }

  function DropTokens(tokens: map<string, ApiToken>, userId: string): map<string, ApiToken> {
    map t | t in tokens && tokens[t].userId != userId :: tokens[t]
  }

  function DropUser(sessions: map<string, Session>, id: string): map<string, Session> {
    map t | t in sessions && sessions[t].userId != id :: sessions[t]
  }

  function DropApiOnly(sessions: map<string, Session>): map<string, Session> {
    map t | t in sessions && !sessions[t].apiOnly :: sessions[t]
  }

  function SessionFor(id: string, u: User, mustChange: bool, expiresAt: int): Session {
    Session(id, u.username, u.role, u.apiOnly, expiresAt, mustChange)
  }

  // ---- The operations ------------------------------------------------------------------------------

  function CreateUser(s: State, id: string, username: string, password: string, nonce: string, role: Role,
                      apiOnly: bool): (State, Outcome) {
    if !apiOnly && password == "" then (s, Refused(EmptyPassword))
    else if exists i :: i in s.users && s.users[i].username == username then (s, Refused(Duplicate))
    else
      var u := User(username, NormaliseRole(role), false, apiOnly, if apiOnly then nonce else password, false);
      (s.(users := s.users[id := u]), Done)
  }

  function BootstrapAdmin(s: State, id: string, pw: string): (State, Outcome) {
    if s.users != map[] then (s, Done)
    else (s.(users := s.users[id := User("admin", Superadmin, false, false, pw, true)]), Done)
  }

  function DeleteUser(s: State, id: string): (State, Outcome) {
    var g := GuardLastAdmin(s, id);
    if g.Refused? then (s, g)
    else
      (State(s.users - {id}, DropTokens(s.tokens, id), DropUser(s.sessions, id)), Done)
  }

  function SetPassword(s: State, id: string, pw: string): (State, Outcome) {
    if pw == "" then (s, Refused(EmptyPassword))
    else if id !in s.users then (s, Refused(NotFound))
    else if s.users[id].apiOnly then (s, Refused(APIOnlyPassword))
    else (s.(users := s.users[id := s.users[id].(secret := pw)], sessions := DropUser(s.sessions, id)), Done)
  }

  function SetRole(s: State, id: string, role: Role): (State, Outcome) {
    var r := NormaliseRole(role);
    var g := if r.Viewer? then GuardLastAdmin(s, id) else Done;
    if g.Refused? then (s, g)
    else if id !in s.users then (s, Refused(NotFound))
    else (s.(users := s.users[id := s.users[id].(role := r)], sessions := DropUser(s.sessions, id)), Done)
  }

  function SetDisabled(s: State, id: string, disabled: bool): (State, Outcome) {
    var g := if disabled then GuardLastAdmin(s, id) else Done;
    if g.Refused? then (s, g)
    else if id !in s.users then (s, Refused(NotFound))
    else
      (s.(users := s.users[id := s.users[id].(disabled := disabled)],
          sessions := if disabled then DropUser(s.sessions, id) else s.sessions), Done)
  }

  function CreateAPIToken(s: State, userId: string, tokenId: string, raw: string): (State, Outcome) {
    if userId !in s.users then (s, Refused(NotFound))
    else if s.users[userId].disabled then (s, Refused(UserDisabled))
    else if !s.users[userId].apiOnly then (s, Refused(NotAPIOnly))
    else (s.(tokens := s.tokens[tokenId := ApiToken(userId, raw)]), Done)
  }

  function RevokeAPIToken(s: State, tokenId: string): (State, Outcome) {
    if tokenId !in s.tokens then (s, Refused(NotFound))
    else (s.(tokens := s.tokens - {tokenId}, sessions := DropApiOnly(s.sessions)), Done)
  }

  predicate MayLogin(u: User, username: string, password: string) {
    u.username == username && !u.disabled && !u.apiOnly && u.secret == password
  }

  /** Usernames are unique in the users table, so at most one row can match. */
  ghost function Login(s: State, username: string, password: string, tok: string, expiresAt: int): (State, Outcome) {
    if id :| id in s.users && MayLogin(s.users[id], username, password) then
      var sess := SessionFor(id, s.users[id], s.users[id].mustChange, expiresAt);
      (s.(sessions := s.sessions[tok := sess]), Issued(tok, sess))
    else (s, Refused(InvalidCredentials))
  }

  function ChangeOwnPassword(s: State, userId: string, current: string, next: string, tok: string,
                             expiresAt: int): (State, Outcome) {
    if |next| < MIN_PASSWORD then (s, Refused(TooShort))
    else if userId !in s.users then (s, Refused(NotFound))
    else if s.users[userId].apiOnly then (s, Refused(APIOnlyPassword))
    else if s.users[userId].secret != current then (s, Refused(InvalidCredentials))
    else
      var u := s.users[userId].(secret := next, mustChange := false);
      var sess := SessionFor(userId, u, false, expiresAt);
      (State(s.users[userId := u], s.tokens, DropUser(s.sessions, userId)[tok := sess]), Issued(tok, sess))
  }

  function Logout(s: State, tok: string): (State, Outcome) { (s.(sessions := s.sessions - {tok}), Done) }

  /** Validate: a live session, or an eviction on sight. */
  function Validate(s: State, tok: string, now: int): (State, Outcome) {
    if tok !in s.sessions then (s, Refused(Unauthorized))
    else if now > s.sessions[tok].expiresAt then (s.(sessions := s.sessions - {tok}), Refused(Unauthorized))
    else (s, Issued(tok, s.sessions[tok]))
  }

  predicate BearerMatches(s: State, tid: string, raw: string)
    requires tid in s.tokens
  {
    s.tokens[tid].raw == raw && s.tokens[tid].userId in s.users && !s.users[s.tokens[tid].userId].disabled
  }

  /** The middleware: a session, else for a bearer the token table, whose hit is cached. */
  ghost function Authorize(s: State, tok: string, bearer: bool, now: int): (State, Outcome) {
    var v := Validate(s, tok, now);
    if v.1.Issued? || !bearer then v
    else if tid :| tid in s.tokens && BearerMatches(s, tid, tok) then
      var id := s.tokens[tid].userId;
      var sess := SessionFor(id, s.users[id], false, now + BEARER_TTL);
      (v.0.(sessions := v.0.sessions[tok := sess]), Issued(tok, sess))
    else v
  }

  function Sweep(s: State, cutoff: int): (State, Outcome) {
    (s.(sessions := map t | t in s.sessions && cutoff <= s.sessions[t].expiresAt :: s.sessions[t]), Done)
  }

  // ---- What holds between operations ---------------------------------------------------------------

  /** A cached session speaks for an existing enabled user, exactly as the user row stands now. */
  ghost predicate Current(s: State, sess: Session) {
    sess.userId in s.users
    && var u := s.users[sess.userId];
       !u.disabled && sess == SessionFor(sess.userId, u, u.mustChange, sess.expiresAt)
  }

  /** The API token a session was resolved from is still there. */
  ghost predicate Backed(s: State, tok: string, userId: string) {
    exists tid :: tid in s.tokens && s.tokens[tid] == ApiToken(userId, tok)
  }

  ghost predicate UniqueNames(s: State) {
    forall i, j :: i in s.users && j in s.users && s.users[i].username == s.users[j].username ==> i == j
  }

  ghost predicate UniqueRaws(s: State) {
    forall i, j :: i in s.tokens && j in s.tokens && s.tokens[i].raw == s.tokens[j].raw ==> i == j
  }

  ghost predicate Inv(s: State) {
    && UniqueNames(s) && UniqueRaws(s)
    && (forall id :: id in s.users && s.users[id].apiOnly ==> !s.users[id].mustChange)
    && (forall tid :: tid in s.tokens ==> s.tokens[tid].userId in s.users && s.users[s.tokens[tid].userId].apiOnly)
    && (forall t :: t in s.sessions ==>
          Current(s, s.sessions[t]) && (s.sessions[t].apiOnly ==> Backed(s, t, s.sessions[t].userId)))
  }

  /** One request to the auth store. A password change goes through the middleware first: `caller` is the
      session token the request carries. */
  datatype Op =
    | OpBootstrap(id: string, pw: string)
    | OpCreateUser(id: string, username: string, password: string, nonce: string, role: Role, apiOnly: bool)
    | OpDeleteUser(id: string)
    | OpSetPassword(id: string, pw: string)
    | OpSetRole(id: string, role: Role)
    | OpSetDisabled(id: string, disabled: bool)
    | OpCreateToken(userId: string, tokenId: string, raw: string)
    | OpRevokeToken(tokenId: string)
    | OpLogin(username: string, password: string, tok: string, expiresAt: int)
    | OpChangePassword(caller: string, bearer: bool, now: int, current: string, next: string, tok: string,
      expiresAt: int)
    | OpLogout(tok: string)
    | OpRequest(tok: string, bearer: bool, now: int)
    | OpSweep(cutoff: int)
    | OpRestart

  /** A new process: the tables are there still, the sessions were in memory. */
  function Restart(s: State): (State, Outcome) { (s.(sessions := map[]), Done) }

  /** Generated row ids are new, and a new API token differs from every token in use. */
  ghost predicate FreshValues(s: State, op: Op) {
    match op
    case OpBootstrap(id, _) => id !in s.users
    case OpCreateUser(id, _, _, _, _, _) => id !in s.users
    case OpCreateToken(_, tokenId, raw) =>
      tokenId !in s.tokens && forall tid :: tid in s.tokens ==> s.tokens[tid].raw != raw
    case _ => true
  }

  ghost function Perform(s: State, op: Op): (State, Outcome) {
    match op
    case OpBootstrap(id, pw) => BootstrapAdmin(s, id, pw)
    case OpCreateUser(id, username, password, nonce, role, apiOnly) =>
      CreateUser(s, id, username, password, nonce, role, apiOnly)
    case OpDeleteUser(id) => DeleteUser(s, id)
    case OpSetPassword(id, pw) => SetPassword(s, id, pw)
    case OpSetRole(id, role) => SetRole(s, id, role)
    case OpSetDisabled(id, disabled) => SetDisabled(s, id, disabled)
    case OpCreateToken(userId, tokenId, raw) => CreateAPIToken(s, userId, tokenId, raw)
    case OpRevokeToken(tokenId) => RevokeAPIToken(s, tokenId)
    case OpLogin(username, password, tok, expiresAt) => Login(s, username, password, tok, expiresAt)
    case OpChangePassword(caller, bearer, now, current, next, tok, expiresAt) =>
      var a := Authorize(s, caller, bearer, now);
      if a.1.Issued? then ChangeOwnPassword(a.0, a.1.session.userId, current, next, tok, expiresAt) else a
    case OpLogout(tok) => Logout(s, tok)
    case OpRequest(tok, bearer, now) => Authorize(s, tok, bearer, now)
    case OpSweep(cutoff) => Sweep(s, cutoff)
    case OpRestart => Restart(s)
  }
}
