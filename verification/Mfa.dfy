/** Optional second factor (backend/investigation/mfa.py) with the login, session and revocation steps it
    depends on (backend/investigation/api.py, backend/investigation/auth.py). Every request is one
    transaction; a rejection rolls back unless the code commits its attempt counters first. */
module Mfa {
  import opened Common
  import opened RateLimits

  type Digest = nat
  type Secret = nat

  /** A password; the stored hash matches exactly the one it was made from. */
  type Password = nat

  datatype Role = Admin | Analyst | Viewer

  /** Identities of the attempt counters: a login name, `manage:<id>` and `mfa:<id>`. */
  datatype Identity = LoginName(name: string) | Manage(user: Id) | SecondFactor(user: Id)

  datatype User = User(active: bool, role: Role, password: Password, secret: Option<Secret>, lastStep: int)
  datatype Ticket = Ticket(user: Id, expires: Clock)
  datatype Enrolment = Enrolment(secret: Secret, session: Digest, expires: Clock)

  datatype Tables = Tables(
    users: map<Id, User>, sessions: map<Digest, Ticket>, challenges: map<Digest, Ticket>,
    pending: map<Id, Enrolment>, tokens: map<Digest, Ticket>, recovery: map<Id, set<Digest>>,
    attempts: map<Identity, Counter>)

  /** The one-time code of a secret at a step, and the stored digest of a recovery code. */
  datatype Crypto = Crypto(totp: (Secret, int) -> string, recovery: string -> Digest)

  datatype Factor = Totp(step: int, at: Clock) | RecoveryCode(digest: Digest)

  datatype Reply = SessionIssued(factor: Option<Factor>) | ChallengeIssued | Accepted | Rejected(status: nat)

  /** The readings of the clock that one request may take, each its own: when it looks up the session or the
      challenge, counts the password, counts the factor, matches the code, goes through pending rows, and issues. */
  datatype Readings = Readings(lookup: Clock, password: Clock, factor: Clock, code: Clock, sweep: Clock, issue: Clock)

  /** One request: cookie and session user, what it proves, its readings of the clock, and what it
      draws (a session token, ten recovery codes). `keyReadable`: the stored secret can be decrypted. */
  datatype Request = Request(
    user: Id, cookie: Digest, password: Password, code: string, keyReadable: bool,
    at: Readings, token: Digest, codes: seq<Digest>)

  /* ---- Pieces shared by the routes ---- */

  function Row(t: Tables, who: Identity): Option<Counter> {
    if who in t.attempts then Some(t.attempts[who]) else None
  }

  /** throttle: None when it raises. */
  function Admitted(t: Tables, who: Identity, limit: nat, now: Clock): Option<Tables> {
    var (row, admitted) := ThrottleStep(Row(t, who), now, limit, 900.0);
    if admitted then Some(t.(attempts := t.attempts[who := row.value])) else None
  }

  function Cleared(t: Tables, user: Id): Tables {
    t.(attempts := t.attempts - {Manage(user), SecondFactor(user)})
  }

  /** The rows left when those of one user are deleted. */
  function NotOf(rows: map<Digest, Ticket>, user: Id): map<Digest, Ticket> {
    map k | k in rows && rows[k].user != user :: rows[k]
  }

  /** The rows left when those that have run out are deleted. */
  function Live(rows: map<Digest, Ticket>, now: Clock): map<Digest, Ticket> {
    map k | k in rows && rows[k].expires > now :: rows[k]
  }

  function LivePending(rows: map<Id, Enrolment>, now: Clock): map<Id, Enrolment> {
    map k | k in rows && rows[k].expires > now :: rows[k]
  }

  function Revoked(t: Tables, user: Id): Tables {
    t.(sessions := NotOf(t.sessions, user),
       challenges := NotOf(t.challenges, user),
       pending := t.pending - {user},
       tokens := NotOf(t.tokens, user))
  }

  /** issue_session: None when the drawn token already names a session. */
  function Issued(t: Tables, user: Id, token: Digest, now: Clock): Option<Tables> {
    var live := Live(t.sessions, now);
    if token in live then None else Some(t.(sessions := live[token := Ticket(user, now + 28800.0)]))
  }

  /** int(t) // 30 */
  function CurrentStep(t: Clock): int {
    (if t >= 0.0 then t.Floor else -((-t).Floor)) / 30
  }

  predicate SixDigits(code: string) {
    |code| == 6 && forall i | 0 <= i < 6 :: '0' <= code[i] <= '9'
  }

  predicate Matches(c: Crypto, secret: Secret, code: string, last: int, step: int) {
    step > last && c.totp(secret, step) == code
  }

  /** The first of the current, the previous and the next step that matches. */
  function MatchStep(c: Crypto, secret: Secret, code: string, last: int, now: Clock): Option<int> {
    var current := CurrentStep(now);
    if !SixDigits(code) then None
    else if Matches(c, secret, code, last, current) then Some(current)
    else if Matches(c, secret, code, last, current - 1) then Some(current - 1)
    else if Matches(c, secret, code, last, current + 1) then Some(current + 1)
    else None
  }

  function CodesOf(t: Tables, user: Id): set<Digest> {
    if user in t.recovery then t.recovery[user] else {}
  }

  datatype Consumption = Unreadable | Refused | Used(tables: Tables, factor: Factor)

  /** consume_factor, for a user with a secret. */
  function Consume(c: Crypto, t: Tables, user: Id, r: Request): (used: Consumption)
    requires user in t.users && t.users[user].secret.Some?
    ensures used.Used? ==> used.tables.users.Keys == t.users.Keys
  {
    var digest := c.recovery(r.code);
    if digest in CodesOf(t, user) then
      Used(t.(recovery := t.recovery[user := CodesOf(t, user) - {digest}]), RecoveryCode(digest))
    else if !r.keyReadable then Unreadable
    else match MatchStep(c, t.users[user].secret.value, r.code, t.users[user].lastStep, r.at.code)
      case None => Refused
      case Some(step) =>
        Used(t.(users := t.users[user := t.users[user].(lastStep := step)]), Totp(step, r.at.code))
  }

  predicate TenDistinct(codes: seq<Digest>) {
    |codes| == 10 && forall i, j | 0 <= i < j < 10 :: codes[i] != codes[j]
  }

  function DigestSet(codes: seq<Digest>): set<Digest> {
    set d | d in codes
  }

  /** recovery_codes: None when two drawn codes have one digest. */
  function Regenerated(t: Tables, user: Id, codes: seq<Digest>): Option<Tables> {
    if TenDistinct(codes) then Some(t.(recovery := t.recovery[user := DigestSet(codes)])) else None
  }

  /** current_user: the cookie's session is live and belongs to this active user. */
  predicate SessionUser(t: Tables, r: Request) {
    && r.user in t.users && t.users[r.user].active
    && r.cookie in t.sessions && t.sessions[r.cookie].user == r.user && t.sessions[r.cookie].expires > r.at.lookup
  }

  /** The end of enable, regenerate and disable: revoke everything, clear the counters, one new session. */
  function Renewed(t: Tables, user: Id, r: Request): Option<Tables> {
    Issued(Cleared(Revoked(t, user), user), user, r.token, r.at.issue)
  }

  function Finished(before: Tables, after: Option<Tables>, factor: Option<Factor>): (Tables, Reply) {
    if after.Some? then (after.value, SessionIssued(factor)) else (before, Rejected(500))
  }

  /* ---- The routes ---- */

  /** `found`: the user of that name, if there is one. */
  function LoginStep(t: Tables, name: string, found: Option<Id>, r: Request): (Tables, Reply) {
    match Admitted(t, LoginName(name), 10, r.at.password)
    case None => (t, Rejected(429))
    case Some(counted) =>
      if found.None? || found.value !in t.users || t.users[found.value].password != r.password || !t.users[found.value].active then
        (counted, Rejected(401))
      else
        var u := counted.(attempts := counted.attempts - {LoginName(name)});
        if t.users[found.value].secret.Some? then Challenged(t, u, found.value, r)
        else Finished(t, Issued(u, found.value, r.token, r.at.issue), None)
  }

  /** begin_challenge: a password alone opens a challenge and closes the browser's session. */
  function Challenged(before: Tables, t: Tables, user: Id, r: Request): (Tables, Reply) {
    var live := NotOf(Live(t.challenges, r.at.sweep), user);
    if r.token in live then (before, Rejected(500))
    else
      (t.(challenges := live[r.token := Ticket(user, r.at.issue + 300.0)], sessions := t.sessions - {r.cookie}), ChallengeIssued)
  }

  /** The user of the cookie's live challenge. */
  function ChallengedUser(t: Tables, r: Request): Option<Id> {
    if r.cookie in t.challenges && t.challenges[r.cookie].expires > r.at.lookup then Some(t.challenges[r.cookie].user) else None
  }

  function VerifyStep(c: Crypto, t: Tables, r: Request): (Tables, Reply) {
    match ChallengedUser(t, r)
    case None => (t, Rejected(401))
    case Some(user) =>
      if user !in t.users || !t.users[user].active || t.users[user].secret.None? then (t, Rejected(401))
      else match Admitted(t, SecondFactor(user), 5, r.at.factor)
        case None => (t, Rejected(429))
        case Some(counted) =>
          match Consume(c, counted, user, r)
          case Unreadable => (t, Rejected(503))
          case Refused => (counted, Rejected(400))
          case Used(u, factor) =>
            var v := u.(challenges := NotOf(u.challenges, user));
            Finished(t, Issued(Cleared(v, user), user, r.token, r.at.issue), Some(factor))
  }

  function SetupStep(t: Tables, r: Request, secret: Secret): (Tables, Reply) {
    if !SessionUser(t, r) then (t, Rejected(401))
    else if t.users[r.user].secret.Some? then (t, Rejected(409))
    else match Admitted(t, Manage(r.user), 5, r.at.password)
      case None => (t, Rejected(429))
      case Some(counted) =>
        if t.users[r.user].password != r.password then (counted, Rejected(400))
        else if !r.keyReadable then (t, Rejected(503))
        else
          var live := LivePending(counted.pending, r.at.sweep);
          (counted.(pending := live[r.user := Enrolment(secret, r.cookie, r.at.issue + 600.0)]), Accepted)
  }

  predicate OwnsPending(t: Tables, r: Request) {
    r.user in t.pending && t.pending[r.user].session == r.cookie && t.pending[r.user].expires > r.at.sweep
  }

  function EnableStep(c: Crypto, t: Tables, r: Request): (Tables, Reply) {
    if !SessionUser(t, r) then (t, Rejected(401))
    else if t.users[r.user].secret.Some? then (t, Rejected(409))
    else if !OwnsPending(t, r) then (t, Rejected(400))
    else match Admitted(t, SecondFactor(r.user), 5, r.at.factor)
      case None => (t, Rejected(429))
      case Some(counted) =>
        if !r.keyReadable then (t, Rejected(503))
        else match MatchStep(c, t.pending[r.user].secret, r.code, -1, r.at.code)
          case None => (counted, Rejected(400))
          case Some(step) =>
            var enrolled := counted.(users := counted.users[r.user :=
              counted.users[r.user].(secret := Some(t.pending[r.user].secret), lastStep := step)]);
            match Regenerated(enrolled, r.user, r.codes)
            case None => (t, Rejected(500))
            case Some(u) => Finished(t, Renewed(u, r.user, r), Some(Totp(step, r.at.code)))
  }

  function CancelStep(t: Tables, r: Request): Tables {
    if r.user in t.pending && t.pending[r.user].session == r.cookie then t.(pending := t.pending - {r.user}) else t
  }

  datatype Proof = Proven(tables: Tables, factor: Factor) | Unproven(tables: Tables, status: nat)

  /** current_user, then check_proof: password and factor, each behind its own counter. */
  function ProofOf(c: Crypto, t: Tables, r: Request): (p: Proof)
    ensures p.Proven? ==> r.user in p.tables.users
  {
    if !SessionUser(t, r) then Unproven(t, 401)
    else match Admitted(t, Manage(r.user), 5, r.at.password)
      case None => Unproven(t, 429)
      case Some(once) =>
        if t.users[r.user].password != r.password then Unproven(once, 400)
        else if t.users[r.user].secret.None? then Unproven(t, 409)
        else match Admitted(once, SecondFactor(r.user), 5, r.at.factor)
          case None => Unproven(t, 429)
          case Some(twice) =>
            match Consume(c, twice, r.user, r)
            case Unreadable => Unproven(t, 503)
            case Refused => Unproven(twice, 400)
            case Used(u, factor) => Proven(u, factor)
  }

  function RegenerateStep(c: Crypto, t: Tables, r: Request): (Tables, Reply) {
    match ProofOf(c, t, r)
    case Unproven(u, status) => (u, Rejected(status))
    case Proven(u, factor) =>
      match Regenerated(u, r.user, r.codes)
      case None => (t, Rejected(500))
      case Some(v) => Finished(t, Renewed(v, r.user, r), Some(factor))
  }

  function Disabled(t: Tables, user: Id): Tables
    requires user in t.users
  {
    t.(users := t.users[user := t.users[user].(secret := None, lastStep := -1)], recovery := t.recovery - {user})
  }

  function DisableStep(c: Crypto, t: Tables, r: Request): (Tables, Reply) {
    match ProofOf(c, t, r)
    case Unproven(u, status) => (u, Rejected(status))
    case Proven(u, factor) =>
      Finished(t, Renewed(Disabled(u, r.user), r.user, r), Some(factor))
  }

  /** What an administrator asks for; no password keeps the old one. */
  datatype Change = Change(active: bool, role: Role, password: Option<Password>)

  function Changed(u: User, d: Change): User {
    u.(active := d.active, role := d.role, password := if d.password.Some? then d.password.value else u.password)
  }

  /** update_user: whatever is changed, every authentication of that user is revoked. */
  function UpdateUserStep(t: Tables, admin: Id, user: Id, d: Change): (Tables, Reply) {
    if user !in t.users then (t, Rejected(404))
    else if user == admin && (!d.active || d.role != Admin) then (t, Rejected(409))
    else (Revoked(t.(users := t.users[user := Changed(t.users[user], d)]), user), Accepted)
  }

  /** A token for programs; the session routes never look at it, but revocation removes it too. */
  function TokenStep(t: Tables, user: Id, token: Digest, expires: Clock): Tables {
    if token in t.tokens then t else t.(tokens := t.tokens[token := Ticket(user, expires)])
  }

  function LogoutStep(t: Tables, cookie: Digest): Tables {
    t.(sessions := t.sessions - {cookie})
  }

  function AddUserStep(t: Tables, user: Id, role: Role, password: Password): Tables {
    if user in t.users then t else t.(users := t.users[user := User(true, role, password, None, -1)])
  }
}
