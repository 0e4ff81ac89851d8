/** Every interleaving of logins, second factors, enrolments, revocations and user updates, under arbitrary
    clock readings, drawn tokens and drawn codes. */
module MfaRuns {
  import opened Common
  import opened Mfa

  datatype Event =
    | Login(name: string, found: Option<Id>, request: Request)
    | Verify(request: Request)
    | Setup(request: Request, secret: Secret)
    | Enable(request: Request)
    | Cancel(request: Request)
    | Regenerate(request: Request)
    | Disable(request: Request)
    | UpdateUser(admin: Id, user: Id, change: Change)
    | Logout(cookie: Digest)
    | AddUser(user: Id, role: Role, password: Password)
    | AddToken(user: Id, token: Digest, expires: Clock)

  /** Tables after the event, and the answer to its request. */
  function Step(c: Crypto, t: Tables, e: Event): (Tables, Reply) {
    match e
    case Login(name, found, r) => LoginStep(t, name, found, r)
    case Verify(r) => VerifyStep(c, t, r)
    case Setup(r, secret) => SetupStep(t, r, secret)
    case Enable(r) => EnableStep(c, t, r)
    case Cancel(r) => (CancelStep(t, r), Accepted)
    case Regenerate(r) => RegenerateStep(c, t, r)
    case Disable(r) => DisableStep(c, t, r)
    case UpdateUser(admin, user, change) => UpdateUserStep(t, admin, user, change)
    case Logout(cookie) => (LogoutStep(t, cookie), Accepted)
    case AddUser(user, role, password) => (AddUserStep(t, user, role, password), Accepted)
    case AddToken(user, token, expires) => (TokenStep(t, user, token, expires), Accepted)
  }

  const EMPTY := Tables(map[], map[], map[], map[], map[], map[], map[])

  ghost predicate IsRun(c: Crypto, ts: seq<Tables>, es: seq<Event>) {
    && |ts| == |es| + 1
    && ts[0] == EMPTY
    && forall i | 0 <= i < |es| :: ts[i + 1] == Step(c, ts[i], es[i]).0
  }

  predicate Enrolled(t: Tables, user: Id) {
    user in t.users && t.users[user].secret.Some?
  }

  function LastStep(t: Tables, user: Id): int {
    if Enrolled(t, user) then t.users[user].lastStep else -1
  }

  /** Whom a request that completes a second factor acts for. */
  function Actor(t: Tables, e: Event): Option<Id> {
    match e
    case Verify(r) => ChallengedUser(t, r)
    case Enable(r) => Some(r.user)
    case Regenerate(r) => Some(r.user)
    case Disable(r) => Some(r.user)
    case _ => None
  }

  /** The factor this event accepts for the user; an event that is rolled back accepts none. */
  function AcceptedFactor(c: Crypto, t: Tables, e: Event, user: Id): Option<Factor> {
    var reply := Step(c, t, e).1;
    if Actor(t, e) == Some(user) && reply.SessionIssued? then reply.factor else None
  }

  /** The event answers with a new session of the user, named by the drawn token. */
  predicate IssuesTo(c: Crypto, t: Tables, e: Event, user: Id, token: Digest) {
    && (e.Verify? || e.Enable? || e.Regenerate?) && e.request.token == token
    && AcceptedFactor(c, t, e, user).Some?
  }

  /* ---- What one route does to sessions, enrolment, steps and codes of one user ---- */

  /** Revocation is complete and exact: nothing that would authenticate the user is left, and sessions, challenges,
      pending enrolments and tokens of everyone else are all still there, unchanged. */
  lemma RevocationIsComplete(t: Tables, user: Id, r: Request)
    ensures var u := Revoked(t, user);
      && (r.user == user ==> !SessionUser(u, r)) && ChallengedUser(u, r) != Some(user) && user !in u.pending
      && (forall k :: k in u.sessions <==> k in t.sessions && t.sessions[k].user != user)
      && (forall k | k in u.sessions :: u.sessions[k] == t.sessions[k])
      && (forall k :: k in u.challenges <==> k in t.challenges && t.challenges[k].user != user)
      && (forall k | k in u.challenges :: u.challenges[k] == t.challenges[k])
      && (forall k :: k in u.tokens <==> k in t.tokens && t.tokens[k].user != user)
      && (forall k | k in u.tokens :: u.tokens[k] == t.tokens[k])
      && (forall k | k != user && k in t.pending :: k in u.pending && u.pending[k] == t.pending[k])
      && u.users == t.users && u.recovery == t.recovery && u.attempts == t.attempts
  {
  }

  /** A new session is good for eight hours from its issue, for an active user with its cookie, and joins exactly the
      sessions that had not run out. */
  lemma IssuedSessionLasts(t: Tables, user: Id, token: Digest, now: Clock, r: Request)
    requires Issued(t, user, token, now).Some? && user in t.users && t.users[user].active
    requires r.user == user && r.cookie == token
    ensures var u := Issued(t, user, token, now).value;
      && (SessionUser(u, r) <==> r.at.lookup < now + 28800.0)
      && (forall k | k != token :: k in u.sessions <==> k in t.sessions && t.sessions[k].expires > now)
      && (forall k | k != token && k in u.sessions :: u.sessions[k] == t.sessions[k])
  {
  }

  /** Whatever an administrator changes, the user must log in again, with the same second factor as before. */
  lemma UpdatedUserIsLoggedOut(t: Tables, admin: Id, user: Id, d: Change, r: Request)
    requires UpdateUserStep(t, admin, user, d).1.Accepted? && r.user == user
    ensures var u := UpdateUserStep(t, admin, user, d).0;
      && !SessionUser(u, r) && ChallengedUser(u, r) != Some(user) && user !in u.pending
      && (forall k | k in u.tokens :: u.tokens[k].user != user)
      && u.users[user].secret == t.users[user].secret && u.users[user].lastStep == t.users[user].lastStep
      && u.users[user].active == d.active && u.users[user].role == d.role && u.recovery == t.recovery
      && (user == admin ==> u.users[user].active && u.users[user].role == Admin)
      && forall k | k in t.users && k != user :: u.users[k] == t.users[k]
  {
    RevocationIsComplete(t.(users := t.users[user := Changed(t.users[user], d)]), user, r);
  }

  lemma ConsumeEffect(c: Crypto, t: Tables, user: Id, r: Request)
    requires Enrolled(t, user)
    ensures var used := Consume(c, t, user, r);
      used.Used? ==>
        && FactorUsed(t, used.tables, user, used.factor, r)
        && used.tables.sessions == t.sessions && used.tables.challenges == t.challenges
  {
  }

  lemma ProofEffect(c: Crypto, t: Tables, r: Request)
    ensures var p := ProofOf(c, t, r);
      && p.tables.sessions == t.sessions
      && (p.Unproven? ==> p.tables.users == t.users && p.tables.recovery == t.recovery)
      && (p.Proven? ==> Enrolled(t, r.user) && FactorUsed(t, p.tables, r.user, p.factor, r))
  {
    if SessionUser(t, r) && Enrolled(t, r.user) {
      var once := Admitted(t, Manage(r.user), 5, r.at.password);
      if once.Some? {
        var twice := Admitted(once.value, SecondFactor(r.user), 5, r.at.factor);
        if twice.Some? { ConsumeEffect(c, twice.value, r.user, r); }
      }
    }
  }

  /** A completed verification spends a factor of the challenged user and then issues the session. */
  lemma VerifyEffect(c: Crypto, t: Tables, r: Request)
    ensures var (u, reply) := VerifyStep(c, t, r);
      if reply.SessionIssued? then
        && ChallengedUser(t, r).Some? && Enrolled(t, ChallengedUser(t, r).value) && reply.factor.Some?
        && FactorUsed(t, u, ChallengedUser(t, r).value, reply.factor.value, r)
        && (forall k | k in u.sessions :: k == r.token || (k in t.sessions && u.sessions[k] == t.sessions[k]))
        && r.token in u.sessions && u.sessions[r.token].user == ChallengedUser(t, r).value
      else u.users == t.users && u.recovery == t.recovery && u.sessions == t.sessions
  {
    var who := ChallengedUser(t, r);
    if who.Some? && Enrolled(t, who.value) {
      var counted := Admitted(t, SecondFactor(who.value), 5, r.at.factor);
      if counted.Some? { ConsumeEffect(c, counted.value, who.value, r); }
    }
  }

  /** A used factor is either a time step beyond the last one, now the last, or a stored code, now gone. */
  predicate FactorUsed(t: Tables, u: Tables, user: Id, f: Factor, r: Request) {
    match f
    case Totp(step, at) =>
      && Enrolled(t, user) && step > t.users[user].lastStep && at == r.at.code
      && CurrentStep(at) - 1 <= step <= CurrentStep(at) + 1
      && u.users == t.users[user := t.users[user].(lastStep := step)] && u.recovery == t.recovery
    case RecoveryCode(d) =>
      d in CodesOf(t, user) && u.users == t.users && u.recovery == t.recovery[user := CodesOf(t, user) - {d}]
  }

  /** Everything a step may do to one user, by the factor it accepted. */
  predicate UserEffect(t: Tables, u: Tables, e: Event, user: Id, f: Option<Factor>) {
    if f.None? then
      && Enrolled(u, user) == Enrolled(t, user) && LastStep(u, user) == LastStep(t, user)
      && CodesOf(u, user) == CodesOf(t, user)
    else if e.Enable? then
      && !Enrolled(t, user) && Enrolled(u, user) && f.value.Totp?
      && StepWithin(f.value) && f.value.step > -1 && LastStep(u, user) == f.value.step
      && TenDistinct(e.request.codes) && CodesOf(u, user) == DigestSet(e.request.codes)
    else if e.Disable? then
      Enrolled(t, user) && !Enrolled(u, user) && CodesOf(u, user) == {}
    else
      && Enrolled(t, user) && Enrolled(u, user)
      && (f.value.Totp? ==> StepWithin(f.value) && LastStep(t, user) < f.value.step && LastStep(u, user) == f.value.step)
      && (f.value.RecoveryCode? ==> LastStep(u, user) == LastStep(t, user) && f.value.digest in CodesOf(t, user))
      && (if e.Regenerate? then
            TenDistinct(e.request.codes) && CodesOf(u, user) == DigestSet(e.request.codes)
          else
            CodesOf(u, user) == CodesOf(t, user) - if f.value.RecoveryCode? then {f.value.digest} else {})
  }

  predicate StepWithin(f: Factor)
    requires f.Totp?
  {
    CurrentStep(f.at) - 1 <= f.step <= CurrentStep(f.at) + 1
  }

  /** The request ended in a session for this user, by this factor: the rows it leaves behind. */
  predicate Completed(t: Tables, u: Tables, e: Event, user: Id, f: Factor)
    requires e.Verify? || e.Enable? || e.Regenerate? || e.Disable?
  {
    var r := e.request;
    && r.token in u.sessions && u.sessions[r.token].user == user
    && (forall k | k in u.sessions && k != r.token ::
          k in t.sessions && u.sessions[k] == t.sessions[k] && (e.Verify? || t.sessions[k].user != user))
    && match e
       case Verify(_) => Enrolled(t, user) && FactorUsed(t, u, user, f, r)
       case Enable(_) =>
         && user in t.users && !Enrolled(t, user) && f.Totp? && StepWithin(f) && f.step > -1 && Enrolled(u, user)
         && u.users == t.users[user := t.users[user].(secret := u.users[user].secret, lastStep := f.step)]
         && TenDistinct(r.codes) && u.recovery == t.recovery[user := DigestSet(r.codes)]
       case Regenerate(_) =>
         && Enrolled(t, user) && FactorFits(t, user, f, r)
         && u.users == (if f.Totp? then t.users[user := t.users[user].(lastStep := f.step)] else t.users)
         && TenDistinct(r.codes) && u.recovery == t.recovery[user := DigestSet(r.codes)]
       case Disable(_) =>
         && Enrolled(t, user) && FactorFits(t, user, f, r)
         && u.users == t.users[user := t.users[user].(secret := None, lastStep := -1)] && u.recovery == t.recovery - {user}
  }

  predicate FactorFits(t: Tables, user: Id, f: Factor, r: Request)
    requires Enrolled(t, user)
  {
    match f
    case Totp(step, at) => step > t.users[user].lastStep && at == r.at.code && StepWithin(f)
    case RecoveryCode(d) => d in CodesOf(t, user)
  }

  /** No session came of it. */
  predicate Uncompleted(t: Tables, u: Tables) {
    u.users == t.users && u.recovery == t.recovery && u.sessions == t.sessions
  }

  lemma VerifyOutcome(c: Crypto, t: Tables, e: Event)
    requires e.Verify?
    ensures var (u, reply) := VerifyStep(c, t, e.request);
      if reply.SessionIssued?
      then ChallengedUser(t, e.request).Some? && reply.factor.Some? && Completed(t, u, e, ChallengedUser(t, e.request).value, reply.factor.value)
      else Uncompleted(t, u)
  {
    VerifyEffect(c, t, e.request);
  }

  lemma EnableOutcome(c: Crypto, t: Tables, e: Event)
    requires e.Enable?
    ensures var (u, reply) := EnableStep(c, t, e.request);
      if reply.SessionIssued? then reply.factor.Some? && Completed(t, u, e, e.request.user, reply.factor.value)
      else Uncompleted(t, u)
  {
    var (u, reply) := EnableStep(c, t, e.request);
    if reply.SessionIssued? {
      EnableRows(c, t, e.request);
    }
  }

  /** What a completed enrolment writes. */
  lemma EnableRows(c: Crypto, t: Tables, r: Request)
    requires EnableStep(c, t, r).1.SessionIssued?
    ensures var (u, reply) := EnableStep(c, t, r);
      && SessionUser(t, r) && !Enrolled(t, r.user) && reply.factor.Some? && reply.factor.value.Totp?
      && StepWithin(reply.factor.value) && reply.factor.value.step > -1 && TenDistinct(r.codes)
      && u.users == t.users[r.user := t.users[r.user].(secret := Some(t.pending[r.user].secret), lastStep := reply.factor.value.step)]
      && u.recovery == t.recovery[r.user := DigestSet(r.codes)]
      && u.sessions == Live(NotOf(t.sessions, r.user), r.at.issue)[r.token := Ticket(r.user, r.at.issue + 28800.0)]
  {
  }

  /** What the last part of enable, regenerate and disable does: users and codes stay, and of the user's sessions just
      the new one is left. */
  lemma RenewedSessions(t: Tables, user: Id, r: Request)
    ensures var u := Renewed(t, user, r);
      u.Some? ==>
        && u.value.users == t.users && u.value.recovery == t.recovery
        && r.token in u.value.sessions && u.value.sessions[r.token].user == user
        && (forall k | k in u.value.sessions && k != r.token ::
              k in t.sessions && u.value.sessions[k] == t.sessions[k] && t.sessions[k].user != user)
  {
  }

  lemma RegenerateOutcome(c: Crypto, t: Tables, e: Event)
    requires e.Regenerate?
    ensures var (u, reply) := RegenerateStep(c, t, e.request);
      if reply.SessionIssued? then reply.factor.Some? && Completed(t, u, e, e.request.user, reply.factor.value)
      else Uncompleted(t, u)
  {
    var r := e.request;
    ProofEffect(c, t, r);
    var p := ProofOf(c, t, r);
    if p.Proven? {
      var codes := Regenerated(p.tables, r.user, r.codes);
      if codes.Some? {
        RenewedSessions(codes.value, r.user, r);
      }
    }
  }

  lemma DisableOutcome(c: Crypto, t: Tables, e: Event)
    requires e.Disable?
    ensures var (u, reply) := DisableStep(c, t, e.request);
      if reply.SessionIssued? then reply.factor.Some? && Completed(t, u, e, e.request.user, reply.factor.value)
      else Uncompleted(t, u)
  {
    var r := e.request;
    ProofEffect(c, t, r);
    var p := ProofOf(c, t, r);
    if p.Proven? {
      RenewedSessions(Disabled(p.tables, r.user), r.user, r);
    }
  }

  /** The user of a request that can complete a factor, and what came of it. */
  lemma FactorOutcome(c: Crypto, t: Tables, e: Event, u: Tables, reply: Reply)
    requires e.Verify? || e.Enable? || e.Regenerate? || e.Disable?
    requires (u, reply) == Step(c, t, e)
    ensures if reply.SessionIssued?
      then Actor(t, e).Some? && reply.factor.Some? && Completed(t, u, e, Actor(t, e).value, reply.factor.value)
      else Uncompleted(t, u)
  {
    match e
    case Verify(_) => VerifyOutcome(c, t, e);
    case Enable(_) => EnableOutcome(c, t, e);
    case Regenerate(_) => RegenerateOutcome(c, t, e);
    case Disable(_) => DisableOutcome(c, t, e);
  }

  lemma CompletedUserEffect(t: Tables, u: Tables, e: Event, actor: Id, f: Factor, user: Id)
    requires (e.Verify? || e.Enable? || e.Regenerate? || e.Disable?) && Completed(t, u, e, actor, f)
    ensures UserEffect(t, u, e, user, if actor == user then Some(f) else None)
  {
  }

  lemma UncompletedUserEffect(t: Tables, u: Tables, e: Event, user: Id)
    requires u.users == t.users && u.recovery == t.recovery
    ensures UserEffect(t, u, e, user, None)
  {
  }

  /** The routes that complete no factor change neither secrets nor last steps nor codes. */
  predicate EnrolmentsKept(t: Tables, u: Tables, user: Id) {
    Enrolled(u, user) == Enrolled(t, user) && LastStep(u, user) == LastStep(t, user) && CodesOf(u, user) == CodesOf(t, user)
  }

  lemma LoginKeepsUsers(t: Tables, name: string, found: Option<Id>, r: Request)
    ensures var (u, reply) := LoginStep(t, name, found, r);
      && u.users == t.users && u.recovery == t.recovery
      && (reply.SessionIssued? ==> reply.factor.None?)
  {
  }

  lemma SetupKeepsUsers(t: Tables, r: Request, secret: Secret)
    ensures SetupStep(t, r, secret).0.users == t.users && SetupStep(t, r, secret).0.recovery == t.recovery
  {
  }

  lemma UpdateKeepsEnrolments(t: Tables, admin: Id, user: Id, d: Change, other: Id)
    ensures EnrolmentsKept(t, UpdateUserStep(t, admin, user, d).0, other)
  {
  }

  lemma AddUserKeepsEnrolments(t: Tables, user: Id, role: Role, password: Password, other: Id)
    ensures EnrolmentsKept(t, AddUserStep(t, user, role, password), other)
  {
  }

  lemma OtherUserEffect(c: Crypto, t: Tables, e: Event, user: Id)
    requires !e.Verify? && !e.Enable? && !e.Regenerate? && !e.Disable?
    ensures EnrolmentsKept(t, Step(c, t, e).0, user)
  {
    match e
    case Login(name, found, r) => LoginKeepsUsers(t, name, found, r);
    case Setup(r, secret) => SetupKeepsUsers(t, r, secret);
    case UpdateUser(admin, target, d) => UpdateKeepsEnrolments(t, admin, target, d, user);
    case AddUser(target, role, password) => AddUserKeepsEnrolments(t, target, role, password, user);
    case _ =>
  }

  lemma StepUserEffect(c: Crypto, t: Tables, e: Event, user: Id)
    ensures UserEffect(t, Step(c, t, e).0, e, user, AcceptedFactor(c, t, e, user))
  {
    var (u, reply) := Step(c, t, e);
    if e.Verify? || e.Enable? || e.Regenerate? || e.Disable? {
      FactorOutcome(c, t, e, u, reply);
      if reply.SessionIssued? {
        CompletedUserEffect(t, u, e, Actor(t, e).value, reply.factor.value, user);
      } else {
        UncompletedUserEffect(t, u, e, user);
      }
    } else {
      OtherUserEffect(c, t, e, user);
    }
  }
}
