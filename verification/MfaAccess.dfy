/** What each route demands before it lets anyone in, read off the rows and the request: the password, a live session or
    challenge, a genuine factor, and room in the attempt counters. */
module MfaAccess {
  import opened Common
  import opened RateLimits
  import opened Mfa
  import opened MfaRuns
  import opened MfaTheorems

  /* ---- The demands ---- */

  /** Too many attempts were counted for this identity within the 900 s of its window. */
  predicate Blocked(t: Tables, who: Identity, limit: nat, now: Clock) {
    who in t.attempts && now - t.attempts[who].window < 900.0 && t.attempts[who].count >= limit
  }

  /** The counters with one attempt more: in the open window, or as the first of a new one. */
  function Counted(t: Tables, who: Identity, now: Clock): Tables {
    var row := if who in t.attempts && now - t.attempts[who].window < 900.0
      then Counter(t.attempts[who].count + 1, t.attempts[who].window) else Counter(1, now);
    t.(attempts := t.attempts[who := row])
  }

  predicate KnowsPassword(t: Tables, user: Id, r: Request) {
    user in t.users && t.users[user].active && t.users[user].password == r.password
  }

  predicate HoldsSession(t: Tables, r: Request) {
    && r.user in t.users && t.users[r.user].active && r.cookie in t.sessions
    && t.sessions[r.cookie].user == r.user && r.at.lookup < t.sessions[r.cookie].expires
  }

  predicate HoldsChallenge(t: Tables, user: Id, r: Request) {
    && r.cookie in t.challenges && t.challenges[r.cookie].user == user && r.at.lookup < t.challenges[r.cookie].expires
    && user in t.users && t.users[user].active && t.users[user].secret.Some?
  }

  predicate IsCode(code: string) {
    |code| == 6 && forall i | 0 <= i < 6 :: code[i] in "0123456789"
  }

  /** The clock's whole seconds, rounded towards zero as int() does. */
  function Seconds(t: Clock): int {
    if t < 0.0 then -((-t).Floor) else t.Floor
  }

  /** The code of this secret for the half minute numbered `step`, later than the last one used, at a reading in that
      half minute or in one next to it. */
  predicate CodeOf(c: Crypto, secret: Secret, code: string, last: int, at: Clock, step: int) {
    && IsCode(code) && c.totp(secret, step) == code && last < step
    && 30 * (step - 1) <= Seconds(at) < 30 * (step + 2)
  }

  /** The request proves possession of this factor of the user. */
  predicate Genuine(c: Crypto, t: Tables, user: Id, r: Request, f: Factor)
    requires Enrolled(t, user)
  {
    match f
    case RecoveryCode(d) => d == c.recovery(r.code) && user in t.recovery && d in t.recovery[user]
    case Totp(step, at) => at == r.at.code && CodeOf(c, t.users[user].secret.value, r.code, t.users[user].lastStep, at, step)
  }

  /* ---- One-time codes ---- */

  lemma DigitIsRange(c: char)
    ensures c in "0123456789" <==> '0' <= c <= '9'
  {
    var digits := "0123456789";
    assert forall i | 0 <= i < 10 :: digits[i] as int == 48 + i;
    if '0' <= c <= '9' {
      assert digits[c as int - 48] == c;
    }
  }

  lemma CodeIsSixDigits(code: string)
    ensures IsCode(code) <==> SixDigits(code)
  {
    if |code| == 6 {
      forall i | 0 <= i < 6 ensures code[i] in "0123456789" <==> '0' <= code[i] <= '9' {
        DigitIsRange(code[i]);
      }
    }
  }

  lemma NearSteps(at: Clock, step: int)
    ensures 30 * (step - 1) <= Seconds(at) < 30 * (step + 2) <==> CurrentStep(at) - 1 <= step <= CurrentStep(at) + 1
  {
  }

  /** A step is found exactly if the code is genuine for one; among several, the current one first and the next one
      last. */
  lemma CodeIsMatched(c: Crypto, secret: Secret, code: string, last: int, at: Clock)
    ensures var found := MatchStep(c, secret, code, last, at);
      && (found.Some? ==> CodeOf(c, secret, code, last, at, found.value))
      && (found.None? ==> forall step :: !CodeOf(c, secret, code, last, at, step))
      && forall step | CodeOf(c, secret, code, last, at, step) && found.Some? ::
           (step <= Seconds(at) / 30 ==> step <= found.value <= Seconds(at) / 30)
  {
    CodeIsSixDigits(code);
    forall step ensures CodeOf(c, secret, code, last, at, step) <==>
      SixDigits(code) && Matches(c, secret, code, last, step) && CurrentStep(at) - 1 <= step <= CurrentStep(at) + 1
    {
      NearSteps(at, step);
    }
  }

  /** A factor is accepted exactly if the request proves one, save that a one-time code cannot be checked without the
      key. What it takes is taken: the recovery code is gone, or the step is the last one used. */
  lemma FactorIsGenuine(c: Crypto, t: Tables, user: Id, r: Request)
    requires Enrolled(t, user)
    ensures match Consume(c, t, user, r)
      case Used(u, f) =>
        && Genuine(c, t, user, r, f) && (f.Totp? ==> r.keyReadable)
        && u == (match f
                 case RecoveryCode(d) => t.(recovery := t.recovery[user := t.recovery[user] - {d}])
                 case Totp(step, _) => t.(users := t.users[user := t.users[user].(lastStep := step)]))
      case Refused => forall f :: !Genuine(c, t, user, r, f)
      case Unreadable => !r.keyReadable && forall f | Genuine(c, t, user, r, f) :: f.Totp?
  {
    CodeIsMatched(c, t.users[user].secret.value, r.code, t.users[user].lastStep, r.at.code);
  }

  /* ---- Attempt counters ---- */

  lemma AdmittedIsCounted(t: Tables, who: Identity, limit: nat, now: Clock)
    requires limit >= 1
    ensures Admitted(t, who, limit, now) == if Blocked(t, who, limit, now) then None else Some(Counted(t, who, now))
  {
  }

  /* ---- The routes ---- */

  /** The row a new session or challenge leaves under the drawn token. */
  predicate Opens(rows: map<Digest, Ticket>, token: Digest, user: Id, expires: Clock) {
    token in rows && rows[token] == Ticket(user, expires)
  }

  /** The drawn token already names a row that the login does not sweep away first. */
  predicate TokenTaken(t: Tables, user: Id, r: Request)
    requires user in t.users
  {
    if t.users[user].secret.None? then SessionTaken(t, r)
    else r.token in t.challenges && r.at.sweep < t.challenges[r.token].expires && t.challenges[r.token].user != user
  }

  predicate SessionTaken(t: Tables, r: Request) {
    r.token in t.sessions && r.at.issue < t.sessions[r.token].expires
  }

  /** The same where the user's own sessions go first. */
  predicate TakenByOther(t: Tables, r: Request) {
    SessionTaken(t, r) && t.sessions[r.token].user != r.user
  }

  /** A login needs the password of an active account. Any other attempt is counted, the eleventh within 900 s not even
      looked at. With the password, the count starts again; without a second factor a session of eight hours opens,
      with one only a challenge of five minutes, and the browser's old session ends. */
  lemma LoginAnswers(t: Tables, name: string, found: Option<Id>, r: Request)
    ensures var (u, reply) := LoginStep(t, name, found, r);
      var who := LoginName(name);
      var right := found.Some? && KnowsPassword(t, found.value, r);
      if Blocked(t, who, 10, r.at.password) then u == t && reply == Rejected(429)
      else if !right then u == Counted(t, who, r.at.password) && reply == Rejected(401)
      else if TokenTaken(t, found.value, r) then u == t && reply == Rejected(500)
      else
        && u.users == t.users && u.attempts == t.attempts - {who}
        && if t.users[found.value].secret.None?
           then reply == SessionIssued(None) && Opens(u.sessions, r.token, found.value, r.at.issue + 28800.0) && u.challenges == t.challenges
           else reply == ChallengeIssued && Opens(u.challenges, r.token, found.value, r.at.issue + 300.0) && u.sessions == t.sessions - {r.cookie}
  {
    AdmittedIsCounted(t, LoginName(name), 10, r.at.password);
    if !Blocked(t, LoginName(name), 10, r.at.password) && found.Some? && KnowsPassword(t, found.value, r) {
      if t.users[found.value].secret.None? {
        LoginOpensSession(t, name, found.value, r);
      } else {
        LoginOpensChallenge(t, name, found.value, r);
      }
    }
  }

  lemma CountsCleared(t: Tables, who: Identity, now: Clock)
    ensures Counted(t, who, now).attempts - {who} == t.attempts - {who}
  {
  }

  lemma LoginOpensSession(t: Tables, name: string, user: Id, r: Request)
    requires !Blocked(t, LoginName(name), 10, r.at.password) && KnowsPassword(t, user, r) && t.users[user].secret.None?
    ensures var (u, reply) := LoginStep(t, name, Some(user), r);
      if SessionTaken(t, r) then u == t && reply == Rejected(500)
      else
        && u.users == t.users && u.attempts == t.attempts - {LoginName(name)}
        && reply == SessionIssued(None) && Opens(u.sessions, r.token, user, r.at.issue + 28800.0) && u.challenges == t.challenges
  {
    AdmittedIsCounted(t, LoginName(name), 10, r.at.password);
    CountsCleared(t, LoginName(name), r.at.password);
  }

  lemma LoginOpensChallenge(t: Tables, name: string, user: Id, r: Request)
    requires !Blocked(t, LoginName(name), 10, r.at.password) && KnowsPassword(t, user, r) && t.users[user].secret.Some?
    ensures var (u, reply) := LoginStep(t, name, Some(user), r);
      if TokenTaken(t, user, r) then u == t && reply == Rejected(500)
      else
        && u.users == t.users && u.attempts == t.attempts - {LoginName(name)}
        && reply == ChallengeIssued && Opens(u.challenges, r.token, user, r.at.issue + 300.0) && u.sessions == t.sessions - {r.cookie}
  {
    AdmittedIsCounted(t, LoginName(name), 10, r.at.password);
    CountsCleared(t, LoginName(name), r.at.password);
  }

  /** Nobody gets in, or half-way in, without the password. */
  lemma LoginNeedsPassword(t: Tables, name: string, found: Option<Id>, r: Request)
    requires var reply := LoginStep(t, name, found, r).1; reply.SessionIssued? || reply.ChallengeIssued?
    ensures found.Some? && KnowsPassword(t, found.value, r)
  {
    LoginAnswers(t, name, found, r);
  }

  /** The second step needs the live challenge of an active account and a genuine factor. A wrong one is counted, the
      sixth within 900 s not even looked at. A right one clears the counts, ends every challenge of the user and opens
      a session of eight hours. */
  lemma VerifyAnswers(c: Crypto, t: Tables, r: Request)
    ensures var (u, reply) := VerifyStep(c, t, r);
      if r.cookie !in t.challenges || !HoldsChallenge(t, t.challenges[r.cookie].user, r) then u == t && reply == Rejected(401)
      else
        var user := t.challenges[r.cookie].user;
        var who := SecondFactor(user);
        if Blocked(t, who, 5, r.at.factor) then u == t && reply == Rejected(429)
        else match reply
          case SessionIssued(f) =>
            && f.Some? && Genuine(c, t, user, r, f.value) && !SessionTaken(t, r) && Opens(u.sessions, r.token, user, r.at.issue + 28800.0)
            && u.attempts == t.attempts - {Manage(user), who} && forall k | k in u.challenges :: u.challenges[k].user != user
          case Rejected(status) =>
            && (status == 400 ==> u == Counted(t, who, r.at.factor) && forall f :: !Genuine(c, t, user, r, f))
            && (status != 400 ==> u == t && ((status == 503 && !r.keyReadable) || (status == 500 && SessionTaken(t, r))))
          case _ => false
  {
    if r.cookie in t.challenges && HoldsChallenge(t, t.challenges[r.cookie].user, r) {
      var user := t.challenges[r.cookie].user;
      AdmittedIsCounted(t, SecondFactor(user), 5, r.at.factor);
      if !Blocked(t, SecondFactor(user), 5, r.at.factor) {
        VerifyChecksFactor(c, t, user, r);
      }
    }
  }

  lemma VerifyChecksFactor(c: Crypto, t: Tables, user: Id, r: Request)
    requires HoldsChallenge(t, user, r) && !Blocked(t, SecondFactor(user), 5, r.at.factor)
    ensures var (u, reply) := VerifyStep(c, t, r);
      match reply
      case SessionIssued(f) =>
        && f.Some? && Genuine(c, t, user, r, f.value) && !SessionTaken(t, r) && Opens(u.sessions, r.token, user, r.at.issue + 28800.0)
        && u.attempts == t.attempts - {Manage(user), SecondFactor(user)} && forall k | k in u.challenges :: u.challenges[k].user != user
      case Rejected(status) =>
        && (status == 400 ==> u == Counted(t, SecondFactor(user), r.at.factor) && forall f :: !Genuine(c, t, user, r, f))
        && (status != 400 ==> u == t && ((status == 503 && !r.keyReadable) || (status == 500 && SessionTaken(t, r))))
      case _ => false
  {
    AdmittedIsCounted(t, SecondFactor(user), 5, r.at.factor);
    var counted := Counted(t, SecondFactor(user), r.at.factor);
    FactorIsGenuine(c, counted, user, r);
    assert forall f :: Genuine(c, counted, user, r, f) <==> Genuine(c, t, user, r, f);
    assert counted.attempts - {Manage(user), SecondFactor(user)} == t.attempts - {Manage(user), SecondFactor(user)};
  }

  /** Setting up needs a live session and the password. The pending secret is bound to that session for ten minutes. */
  lemma SetupAnswers(t: Tables, r: Request, secret: Secret)
    ensures var (u, reply) := SetupStep(t, r, secret);
      var who := Manage(r.user);
      if !HoldsSession(t, r) then u == t && reply == Rejected(401)
      else if t.users[r.user].secret.Some? then u == t && reply == Rejected(409)
      else if Blocked(t, who, 5, r.at.password) then u == t && reply == Rejected(429)
      else if !KnowsPassword(t, r.user, r) then u == Counted(t, who, r.at.password) && reply == Rejected(400)
      else if !r.keyReadable then u == t && reply == Rejected(503)
      else
        && reply == Accepted && u == Counted(t, who, r.at.password).(pending := u.pending)
        && r.user in u.pending && u.pending[r.user] == Enrolment(secret, r.cookie, r.at.issue + 600.0)
        && forall k | k != r.user :: k in u.pending <==> k in t.pending && t.pending[k].expires > r.at.sweep
  {
    AdmittedIsCounted(t, Manage(r.user), 5, r.at.password);
  }

  /** The pending secret that this very session asked for and that has not run out. */
  predicate HoldsPending(t: Tables, r: Request) {
    r.user in t.pending && t.pending[r.user].session == r.cookie && r.at.sweep < t.pending[r.user].expires
  }

  /** Ten codes, no two of them alike. */
  predicate TenCodes(codes: seq<Digest>) {
    |codes| == 10 && |DigestSet(codes)| == 10
  }

  /** The user's recovery codes are these and no others. */
  ghost predicate CodesAre(t: Tables, user: Id, codes: seq<Digest>) {
    user in t.recovery && forall d :: d in t.recovery[user] <==> d in codes
  }

  lemma {:induction false} AlikeCodesAreFewer(codes: seq<Digest>)
    ensures |DigestSet(codes)| <= |codes|
    ensures (exists i, j :: 0 <= i < j < |codes| && codes[i] == codes[j]) ==> |DigestSet(codes)| < |codes|
  {
    if codes != [] {
      var front, last := codes[..|codes| - 1], codes[|codes| - 1];
      AlikeCodesAreFewer(front);
      assert codes == front + [last];
      assert DigestSet(codes) == DigestSet(front) + {last};
      if i, j :| 0 <= i < j < |codes| && codes[i] == codes[j] {
        if j == |codes| - 1 {
          assert front[i] == last && DigestSet(codes) == DigestSet(front);
        } else {
          assert front[i] == front[j];
        }
      }
    }
  }

  lemma TenCodesAreDistinct(codes: seq<Digest>)
    ensures TenCodes(codes) <==> TenDistinct(codes)
  {
    AlikeCodesAreFewer(codes);
    if TenDistinct(codes) {
      DistinctDigests(codes);
    }
  }

  /** Enabling needs a live session, its pending secret and a code of that secret; a wrong code is counted. */
  lemma EnableAnswers(c: Crypto, t: Tables, r: Request)
    ensures var (u, reply) := EnableStep(c, t, r);
      var who := SecondFactor(r.user);
      if !HoldsSession(t, r) then u == t && reply == Rejected(401)
      else if t.users[r.user].secret.Some? then u == t && reply == Rejected(409)
      else if !HoldsPending(t, r) then u == t && reply == Rejected(400)
      else if Blocked(t, who, 5, r.at.factor) then u == t && reply == Rejected(429)
      else if !r.keyReadable then u == t && reply == Rejected(503)
      else
        var secret := t.pending[r.user].secret;
        match reply
        case SessionIssued(f) =>
          && f.Some? && f.value.Totp? && f.value.at == r.at.code && CodeOf(c, secret, r.code, -1, r.at.code, f.value.step)
          && u.users == t.users[r.user := t.users[r.user].(secret := Some(secret), lastStep := f.value.step)]
          && TenCodes(r.codes) && !TakenByOther(t, r) && CodesAre(u, r.user, r.codes)
          && Opens(u.sessions, r.token, r.user, r.at.issue + 28800.0) && u.attempts == t.attempts - {Manage(r.user), who}
        case Rejected(400) => u == Counted(t, who, r.at.factor) && forall step :: !CodeOf(c, secret, r.code, -1, r.at.code, step)
        case Rejected(status) => status == 500 && u == t && (!TenCodes(r.codes) || TakenByOther(t, r))
        case _ => false
  {
    if HoldsSession(t, r) && t.users[r.user].secret.None? && HoldsPending(t, r) {
      AdmittedIsCounted(t, SecondFactor(r.user), 5, r.at.factor);
      CodeIsMatched(c, t.pending[r.user].secret, r.code, -1, r.at.code);
      TenCodesAreDistinct(r.codes);
      var counted := Counted(t, SecondFactor(r.user), r.at.factor);
      assert counted.attempts - {Manage(r.user), SecondFactor(r.user)} == t.attempts - {Manage(r.user), SecondFactor(r.user)};
    }
  }

  /** What regenerating and disabling demand: a live session, the password and a genuine factor, in this order, the last
      two each behind a counter of its own. */
  lemma ProofAnswers(c: Crypto, t: Tables, r: Request)
    ensures var p := ProofOf(c, t, r);
      var once := Counted(t, Manage(r.user), r.at.password);
      var twice := Counted(once, SecondFactor(r.user), r.at.factor);
      if !HoldsSession(t, r) then p == Unproven(t, 401)
      else if Blocked(t, Manage(r.user), 5, r.at.password) then p == Unproven(t, 429)
      else if !KnowsPassword(t, r.user, r) then p == Unproven(once, 400)
      else if t.users[r.user].secret.None? then p == Unproven(t, 409)
      else if Blocked(t, SecondFactor(r.user), 5, r.at.factor) then p == Unproven(t, 429)
      else match p
        case Proven(u, f) => Genuine(c, t, r.user, r, f)
        case Unproven(u, status) =>
          || (status == 400 && u == twice && forall f :: !Genuine(c, t, r.user, r, f))
          || (status == 503 && u == t && !r.keyReadable)
  {
    AdmittedIsCounted(t, Manage(r.user), 5, r.at.password);
    var once := Counted(t, Manage(r.user), r.at.password);
    AdmittedIsCounted(once, SecondFactor(r.user), 5, r.at.factor);
    var twice := Counted(once, SecondFactor(r.user), r.at.factor);
    if Enrolled(t, r.user) {
      FactorIsGenuine(c, twice, r.user, r);
      assert forall f :: Genuine(c, twice, r.user, r, f) <==> Genuine(c, t, r.user, r, f);
    }
  }

  /** So does regenerating; when it succeeds, the ten new codes are all there are, the counts are cleared and a session
      of eight hours opens. */
  lemma RegenerateAnswers(c: Crypto, t: Tables, r: Request)
    ensures var (u, reply) := RegenerateStep(c, t, r);
      if ProofOf(c, t, r).Unproven? then (u, reply) == (ProofOf(c, t, r).tables, Rejected(ProofOf(c, t, r).status))
      else if !TenCodes(r.codes) || TakenByOther(t, r) then u == t && reply == Rejected(500)
      else
        reply.SessionIssued? && ProvenOutcome(c, t, u, r, reply.factor) && CodesAre(u, r.user, r.codes)
  {
    TenCodesAreDistinct(r.codes);
    if ProofOf(c, t, r).Proven? {
      ProofAnswers(c, t, r);
      ProvenCounts(c, t, r);
    }
  }

  /** And disabling; when it succeeds, secret and codes are gone. */
  lemma DisableAnswers(c: Crypto, t: Tables, r: Request)
    ensures var (u, reply) := DisableStep(c, t, r);
      if ProofOf(c, t, r).Unproven? then (u, reply) == (ProofOf(c, t, r).tables, Rejected(ProofOf(c, t, r).status))
      else if TakenByOther(t, r) then u == t && reply == Rejected(500)
      else
        && reply.SessionIssued? && ProvenOutcome(c, t, u, r, reply.factor)
        && u.users[r.user].secret.None? && u.users[r.user].lastStep == -1 && r.user !in u.recovery
  {
    if ProofOf(c, t, r).Proven? {
      ProofAnswers(c, t, r);
      ProvenCounts(c, t, r);
    }
  }

  predicate ProvenOutcome(c: Crypto, t: Tables, u: Tables, r: Request, f: Option<Factor>) {
    && HoldsSession(t, r) && KnowsPassword(t, r.user, r) && Enrolled(t, r.user) && f.Some? && Genuine(c, t, r.user, r, f.value)
    && Opens(u.sessions, r.token, r.user, r.at.issue + 28800.0) && r.user in u.users
    && u.attempts == t.attempts - {Manage(r.user), SecondFactor(r.user)}
  }

  lemma ProvenCounts(c: Crypto, t: Tables, r: Request)
    requires ProofOf(c, t, r).Proven?
    ensures var u := ProofOf(c, t, r).tables;
      && r.user in u.users && (forall k | k in u.sessions :: k in t.sessions && u.sessions[k] == t.sessions[k])
      && (forall k | k in t.sessions :: k in u.sessions)
      && u.attempts - {Manage(r.user), SecondFactor(r.user)} == t.attempts - {Manage(r.user), SecondFactor(r.user)}
  {
    AdmittedIsCounted(t, Manage(r.user), 5, r.at.password);
    var once := Counted(t, Manage(r.user), r.at.password);
    AdmittedIsCounted(once, SecondFactor(r.user), 5, r.at.factor);
    FactorIsGenuine(c, Counted(once, SecondFactor(r.user), r.at.factor), r.user, r);
  }

  /* ---- Accounts ---- */

  /** An administrator sets activity and role, and the password if a new one is given; never so that the account at work
      stops being that of an active administrator. */
  lemma UpdateUserAnswers(t: Tables, admin: Id, user: Id, d: Change)
    ensures var (u, reply) := UpdateUserStep(t, admin, user, d);
      if user !in t.users then u == t && reply == Rejected(404)
      else if user == admin && !(d.active && d.role == Admin) then u == t && reply == Rejected(409)
      else
        var password := match d.password case None => t.users[user].password case Some(p) => p;
        && reply == Accepted
        && u.users == t.users[user := User(d.active, d.role, password, t.users[user].secret, t.users[user].lastStep)]
  {
  }

  /** So from then on just the password given last opens the account, if it is still active. */
  lemma NewPasswordOpens(t: Tables, admin: Id, user: Id, d: Change, name: string, r: Request)
    requires UpdateUserStep(t, admin, user, d).1 == Accepted && d.password.Some? && !Blocked(t, LoginName(name), 10, r.at.password)
    ensures var u := UpdateUserStep(t, admin, user, d).0;
      (LoginStep(u, name, Some(user), r).1 == Rejected(401)) <==> !(d.active && r.password == d.password.value)
  {
    UpdateUserAnswers(t, admin, user, d);
    LoginAnswers(UpdateUserStep(t, admin, user, d).0, name, Some(user), r);
  }

  /** A new account is active and has no second factor: its password opens it. */
  lemma NewAccountOpens(t: Tables, user: Id, role: Role, password: Password, name: string, r: Request)
    requires user !in t.users && LoginName(name) !in t.attempts && r.token !in t.sessions
    ensures var u := AddUserStep(t, user, role, password);
      && u == t.(users := t.users[user := User(true, role, password, None, -1)])
      && LoginStep(u, name, Some(user), r).1 == if r.password == password then SessionIssued(None) else Rejected(401)
  {
    LoginAnswers(AddUserStep(t, user, role, password), name, Some(user), r);
  }

  /** Only the session that asked for it can call a pending enrolment off; logging out ends just that session. */
  lemma CancelAndLogout(t: Tables, r: Request, k: Id, s: Digest)
    ensures var u := CancelStep(t, r);
      && u == t.(pending := u.pending)
      && (k in u.pending <==> k in t.pending && !(k == r.user && t.pending[k].session == r.cookie))
      && (k in u.pending ==> u.pending[k] == t.pending[k])
    ensures var u := LogoutStep(t, r.cookie);
      && u == t.(sessions := u.sessions) && (s in u.sessions <==> s in t.sessions && s != r.cookie)
      && (s in u.sessions ==> u.sessions[s] == t.sessions[s])
  {
  }

  /** A new API token is its user's until it is overtaken by a change of the account. */
  lemma TokenLastsUntilUpdate(t: Tables, user: Id, token: Digest, expires: Clock, admin: Id, d: Change)
    ensures var u := TokenStep(t, user, token, expires);
      if token in t.tokens then u == t
      else
        && u == t.(tokens := t.tokens[token := Ticket(user, expires)])
        && (UpdateUserStep(u, admin, user, d).1 == Accepted ==> token !in UpdateUserStep(u, admin, user, d).0.tokens)
  {
  }
}
