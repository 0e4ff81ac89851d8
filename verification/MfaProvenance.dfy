/** Over whole runs: whatever lets a user in goes back to the password that user has now, and wrong guesses are few. */
module MfaProvenance {
  import opened Common
  import opened RateLimits
  import opened Mfa
  import opened MfaRuns
  import opened MfaAccess
  import opened MfaTheorems

  /* ---- The password behind every session ---- */

  predicate HasChallenge(t: Tables, user: Id, token: Digest) {
    token in t.challenges && t.challenges[token].user == user
  }

  /** Something is stored that lets this user in or further in: a session, a challenge or a pending secret. */
  ghost predicate HasAccess(t: Tables, user: Id) {
    user in t.pending || (exists k :: HasSession(t, user, k)) || exists k :: HasChallenge(t, user, k)
  }

  /** The event carries the password that the active account has at that moment. */
  predicate PasswordGiven(t: Tables, e: Event, user: Id) {
    match e
    case Login(_, found, r) => found == Some(user) && KnowsPassword(t, user, r)
    case Setup(r, _) => r.user == user && KnowsPassword(t, user, r)
    case Regenerate(r) => r.user == user && KnowsPassword(t, user, r)
    case Disable(r) => r.user == user && KnowsPassword(t, user, r)
    case _ => false
  }

  predicate Reset(t: Tables, e: Event, user: Id) {
    e.UpdateUser? && e.user == user && UpdateUserStep(t, e.admin, user, e.change).1.Accepted?
  }

  predicate SameAccount(t: Tables, u: Tables, user: Id) {
    && user in t.users && user in u.users
    && u.users[user].password == t.users[user].password && u.users[user].active == t.users[user].active
  }

  lemma CompletedKeepsAccount(t: Tables, u: Tables, e: Event, actor: Id, f: Factor, user: Id)
    requires (e.Verify? || e.Enable? || e.Regenerate? || e.Disable?) && Completed(t, u, e, actor, f) && user in t.users
    ensures SameAccount(t, u, user)
  {
  }

  lemma AccountKept(c: Crypto, t: Tables, e: Event, user: Id)
    requires user in t.users && !Reset(t, e, user)
    ensures SameAccount(t, Step(c, t, e).0, user)
  {
    match e
    case Login(name, found, r) => LoginKeepsUsers(t, name, found, r);
    case Setup(r, secret) => SetupKeepsUsers(t, r, secret);
    case UpdateUser(admin, target, d) => UpdateKeepsAccount(t, admin, target, d, user);
    case AddUser(_, _, _) =>
    case Cancel(_) =>
    case Logout(_) =>
    case AddToken(_, _, _) =>
    case _ => FactorKeepsAccount(c, t, e, user);
  }

  lemma UpdateKeepsAccount(t: Tables, admin: Id, target: Id, d: Change, user: Id)
    requires user in t.users && (user == target ==> !UpdateUserStep(t, admin, target, d).1.Accepted?)
    ensures SameAccount(t, UpdateUserStep(t, admin, target, d).0, user)
  {
  }

  lemma FactorKeepsAccount(c: Crypto, t: Tables, e: Event, user: Id)
    requires (e.Verify? || e.Enable? || e.Regenerate? || e.Disable?) && user in t.users
    ensures SameAccount(t, Step(c, t, e).0, user)
  {
    var (u, reply) := Step(c, t, e);
    FactorOutcome(c, t, e, u, reply);
    if reply.SessionIssued? {
      CompletedKeepsAccount(t, u, e, Actor(t, e).value, reply.factor.value, user);
    }
  }

  /** Whoever completes a factor was let in before, or gives the password now. */
  lemma ActorHadAccess(c: Crypto, t: Tables, e: Event)
    requires (e.Verify? || e.Enable? || e.Regenerate? || e.Disable?) && Step(c, t, e).1.SessionIssued?
    ensures Actor(t, e).Some? && (HasAccess(t, Actor(t, e).value) || PasswordGiven(t, e, Actor(t, e).value))
  {
    match e
    case Verify(r) =>
      VerifyAnswers(c, t, r);
      assert HasChallenge(t, Actor(t, e).value, r.cookie);
    case Enable(r) =>
      EnableAnswers(c, t, r);
      assert HasSession(t, r.user, r.cookie);
    case Regenerate(r) =>
      ProofAnswers(c, t, r);
      RegenerateAnswers(c, t, r);
    case Disable(r) =>
      ProofAnswers(c, t, r);
      DisableAnswers(c, t, r);
  }

  lemma LoginSessions(t: Tables, name: string, found: Option<Id>, r: Request, user: Id, k: Digest)
    requires HasSession(LoginStep(t, name, found, r).0, user, k)
    ensures HasSession(t, user, k) || (found == Some(user) && KnowsPassword(t, user, r))
  {
    if LoginStep(t, name, found, r).1.SessionIssued? {
      LoginNeedsPassword(t, name, found, r);
      LoginOpens(t, name, found, r);
    } else {
      LoginOpensNothing(t, name, found, r);
    }
  }

  lemma CompletedOpens(t: Tables, u: Tables, e: Event, actor: Id, f: Factor, user: Id, k: Digest)
    requires (e.Verify? || e.Enable? || e.Regenerate? || e.Disable?) && Completed(t, u, e, actor, f)
    requires HasSession(u, user, k)
    ensures HasSession(t, user, k) || user == actor
  {
  }

  lemma SessionsComeFrom(c: Crypto, t: Tables, e: Event, user: Id, k: Digest)
    requires HasSession(Step(c, t, e).0, user, k)
    ensures HasAccess(t, user) || PasswordGiven(t, e, user)
  {
    assert HasSession(t, user, k) ==> HasAccess(t, user);
    match e
    case Login(name, found, r) => LoginSessions(t, name, found, r, user, k);
    case Setup(r, secret) => SetupAnswers(t, r, secret);
    case UpdateUser(_, _, _) =>
    case AddUser(_, _, _) =>
    case Cancel(_) =>
    case Logout(_) =>
    case AddToken(_, _, _) =>
    case _ =>
      var (u, reply) := Step(c, t, e);
      FactorOutcome(c, t, e, u, reply);
      if reply.SessionIssued? {
        ActorHadAccess(c, t, e);
        CompletedOpens(t, u, e, Actor(t, e).value, reply.factor.value, user, k);
      }
  }

  /** Only a login opens a challenge, and no other route makes one. */
  lemma ChallengesComeFrom(c: Crypto, t: Tables, e: Event, user: Id, k: Digest)
    requires HasChallenge(Step(c, t, e).0, user, k)
    ensures HasChallenge(t, user, k) || PasswordGiven(t, e, user)
  {
    match e
    case Login(name, found, r) => LoginChallenges(t, name, found, r, user, k);
    case Setup(r, secret) => SetupAnswers(t, r, secret);
    case Verify(r) => VerifyChallenges(c, t, r, user, k);
    case Enable(r) => EnableChallenges(c, t, r, user, k);
    case Regenerate(r) => ProvenChallenges(c, t, r, user, k);
    case Disable(r) => ProvenChallenges(c, t, r, user, k);
    case _ =>
  }

  lemma LoginChallenges(t: Tables, name: string, found: Option<Id>, r: Request, user: Id, k: Digest)
    requires HasChallenge(LoginStep(t, name, found, r).0, user, k)
    ensures HasChallenge(t, user, k) || (found == Some(user) && KnowsPassword(t, user, r))
  {
  }

  lemma VerifyChallenges(c: Crypto, t: Tables, r: Request, user: Id, k: Digest)
    requires HasChallenge(VerifyStep(c, t, r).0, user, k)
    ensures HasChallenge(t, user, k)
  {
  }

  lemma EnableChallenges(c: Crypto, t: Tables, r: Request, user: Id, k: Digest)
    requires HasChallenge(EnableStep(c, t, r).0, user, k)
    ensures HasChallenge(t, user, k)
  {
  }

  lemma ProofChallenges(c: Crypto, t: Tables, r: Request)
    ensures ProofOf(c, t, r).tables.challenges == t.challenges && ProofOf(c, t, r).tables.pending == t.pending
  {
  }

  lemma ProvenChallenges(c: Crypto, t: Tables, r: Request, user: Id, k: Digest)
    ensures HasChallenge(RegenerateStep(c, t, r).0, user, k) ==> HasChallenge(t, user, k)
    ensures HasChallenge(DisableStep(c, t, r).0, user, k) ==> HasChallenge(t, user, k)
    ensures user in RegenerateStep(c, t, r).0.pending ==> user in t.pending
    ensures user in DisableStep(c, t, r).0.pending ==> user in t.pending
  {
    ProofChallenges(c, t, r);
  }

  /** Only a setup with the password leaves a pending secret. */
  lemma PendingComesFrom(c: Crypto, t: Tables, e: Event, user: Id)
    requires user in Step(c, t, e).0.pending
    ensures user in t.pending || PasswordGiven(t, e, user)
  {
    match e
    case Login(name, found, r) =>
    case Setup(r, secret) => SetupAnswers(t, r, secret);
    case Verify(r) => VerifyPending(c, t, r, user);
    case Enable(r) => EnablePending(c, t, r, user);
    case Regenerate(r) => ProvenChallenges(c, t, r, user, 0);
    case Disable(r) => ProvenChallenges(c, t, r, user, 0);
    case _ =>
  }

  lemma VerifyPending(c: Crypto, t: Tables, r: Request, user: Id)
    ensures VerifyStep(c, t, r).0.pending == t.pending
  {
  }

  lemma EnablePending(c: Crypto, t: Tables, r: Request, user: Id)
    ensures user in EnableStep(c, t, r).0.pending ==> user in t.pending
  {
  }

  lemma ResetEndsAccess(t: Tables, e: Event, user: Id)
    requires Reset(t, e, user)
    ensures !HasAccess(UpdateUserStep(t, e.admin, user, e.change).0, user)
  {
  }

  lemma AccessComesFrom(c: Crypto, t: Tables, e: Event, user: Id)
    requires HasAccess(Step(c, t, e).0, user)
    ensures !Reset(t, e, user) && (HasAccess(t, user) || PasswordGiven(t, e, user))
  {
    var u := Step(c, t, e).0;
    if Reset(t, e, user) {
      ResetEndsAccess(t, e, user);
    }
    if user in u.pending {
      PendingComesFrom(c, t, e, user);
    } else if k :| HasSession(u, user, k) {
      SessionsComeFrom(c, t, e, user, k);
    } else {
      var k :| HasChallenge(u, user, k);
      ChallengesComeFrom(c, t, e, user, k);
    }
  }

  /** Event d carried the password that the active account still has at state i. */
  ghost predicate KnownSince(ts: seq<Tables>, es: seq<Event>, d: int, i: nat, user: Id)
    requires |ts| == |es| + 1 && i < |ts|
  {
    && 0 <= d < i && PasswordGiven(ts[d], es[d], user) && SameAccount(ts[d], ts[i], user) && ts[i].users[user].active
  }

  /** Every session, challenge and pending secret goes back to an event that gave the user's password, and the one the
      user has now at that: changing a password, or taking an account out of service, ends whatever the old one opened. */
  lemma {:induction false} AccessNeedsPassword(c: Crypto, ts: seq<Tables>, es: seq<Event>, i: nat, user: Id)
    requires IsRun(c, ts, es) && i < |ts| && HasAccess(ts[i], user)
    ensures exists d :: KnownSince(ts, es, d, i, user)
  {
    if i > 0 {
      AccessComesFrom(c, ts[i - 1], es[i - 1], user);
      if PasswordGiven(ts[i - 1], es[i - 1], user) {
        AccountKept(c, ts[i - 1], es[i - 1], user);
        assert KnownSince(ts, es, i - 1, i, user);
      } else {
        AccessNeedsPassword(c, ts, es, i - 1, user);
        var d :| KnownSince(ts, es, d, i - 1, user);
        AccountKept(c, ts[i - 1], es[i - 1], user);
        assert KnownSince(ts, es, d, i, user);
      }
    }
  }

  /* ---- Guessing ---- */

  /** How many attempts an identity has in one window. */
  function Allowance(who: Identity): nat {
    if who.LoginName? then 10 else 5
  }

  /** The reading at which this event would count an attempt of this identity. */
  function ReadingFor(e: Event, who: Identity): Clock {
    match e
    case Login(_, _, r) => r.at.password
    case Setup(r, _) => r.at.password
    case Verify(r) => r.at.factor
    case Enable(r) => r.at.factor
    case Regenerate(r) => if who.Manage? then r.at.password else r.at.factor
    case Disable(r) => if who.Manage? then r.at.password else r.at.factor
    case _ => 0.0
  }

  predicate Unmoved(t: Tables, u: Tables, who: Identity) {
    (who in u.attempts <==> who in t.attempts) && (who in u.attempts ==> u.attempts[who] == t.attempts[who])
  }

  /** One more attempt is counted for this identity, which was still allowed one. */
  predicate CountsOne(t: Tables, u: Tables, who: Identity, now: Clock) {
    && !Blocked(t, who, Allowance(who), now) && who in u.attempts
    && u.attempts[who] == Counted(t, who, now).attempts[who]
  }

  predicate CounterMoves(t: Tables, u: Tables, e: Event, who: Identity) {
    Unmoved(t, u, who) || who !in u.attempts || CountsOne(t, u, who, ReadingFor(e, who))
  }

  /** What check_proof leaves of a counter when it refuses. */
  lemma RefusedProofCounters(c: Crypto, t: Tables, e: Event, who: Identity)
    requires (e.Regenerate? || e.Disable?) && ProofOf(c, t, e.request).Unproven?
    ensures CounterMoves(t, ProofOf(c, t, e.request).tables, e, who)
  {
    ProofAnswers(c, t, e.request);
  }

  lemma ProvenCounters(c: Crypto, t: Tables, e: Event, who: Identity)
    requires e.Regenerate? || e.Disable?
    ensures CounterMoves(t, Step(c, t, e).0, e, who)
  {
    if ProofOf(c, t, e.request).Unproven? {
      RefusedProofCounters(c, t, e, who);
    } else {
      RegenerateAnswers(c, t, e.request);
      DisableAnswers(c, t, e.request);
      ProvenLeaves(c, t, e);
    }
  }

  lemma ProvenLeaves(c: Crypto, t: Tables, e: Event)
    requires (e.Regenerate? || e.Disable?) && ProofOf(c, t, e.request).Proven?
    ensures var (u, reply) := Step(c, t, e); reply.SessionIssued? || u == t
  {
  }

  lemma VerifyCounters(c: Crypto, t: Tables, e: Event, who: Identity)
    requires e.Verify?
    ensures CounterMoves(t, Step(c, t, e).0, e, who)
  {
    VerifyAnswers(c, t, e.request);
  }

  lemma EnableCounters(c: Crypto, t: Tables, e: Event, who: Identity)
    requires e.Enable?
    ensures CounterMoves(t, Step(c, t, e).0, e, who)
  {
    EnableAnswers(c, t, e.request);
  }

  /** Every event leaves a counter alone, clears it or counts one attempt. */
  lemma CounterStep(c: Crypto, t: Tables, e: Event, who: Identity)
    ensures CounterMoves(t, Step(c, t, e).0, e, who)
  {
    match e
    case Login(name, found, r) => LoginAnswers(t, name, found, r);
    case Setup(r, secret) => SetupAnswers(t, r, secret);
    case Verify(_) => VerifyCounters(c, t, e, who);
    case Enable(_) => EnableCounters(c, t, e, who);
    case Regenerate(_) => ProvenCounters(c, t, e, who);
    case Disable(_) => ProvenCounters(c, t, e, who);
    case _ =>
  }

  /** The attempts counted for an identity since its counter was last cleared. */
  function Tries(ts: seq<Tables>, es: seq<Event>, i: nat, who: Identity): History<Clock>
    requires i <= |es| && |ts| == |es| + 1
  {
    if i == 0 || who !in ts[i].attempts then Start
    else if Unmoved(ts[i - 1], ts[i], who) then Tries(ts, es, i - 1, who)
    else Then(Tries(ts, es, i - 1, who), ReadingFor(es[i - 1], who))
  }

  /** How many of them were made in [from, from + 900). */
  function TriesIn(h: History<Clock>, from: Clock): nat {
    match h
    case Start => 0
    case Then(before, at) => TriesIn(before, from) + if from <= at < from + 900.0 then 1 else 0
  }

  /** The stored counter is that of these attempts, all of which were let through. */
  predicate Tells(t: Tables, who: Identity, h: History<Clock>, from: Clock) {
    && RateLimits.Row(h, Allowance(who), 900.0) == (if who in t.attempts then Some(t.attempts[who]) else None)
    && PassedIn(h, Allowance(who), 900.0, from) == TriesIn(h, from)
  }

  lemma CountedAttempt(t: Tables, u: Tables, who: Identity, h: History<Clock>, now: Clock, from: Clock)
    requires Tells(t, who, h, from) && CountsOne(t, u, who, now)
    ensures Tells(u, who, Then(h, now), from)
  {
  }

  lemma {:induction false} CountersTell(c: Crypto, ts: seq<Tables>, es: seq<Event>, i: nat, who: Identity, from: Clock)
    requires IsRun(c, ts, es) && i <= |es|
    ensures Tells(ts[i], who, Tries(ts, es, i, who), from)
  {
    if i > 0 && who in ts[i].attempts {
      CountersTell(c, ts, es, i - 1, who, from);
      CounterStep(c, ts[i - 1], es[i - 1], who);
      if !Unmoved(ts[i - 1], ts[i], who) {
        CountedAttempt(ts[i - 1], ts[i], who, Tries(ts, es, i - 1, who), ReadingFor(es[i - 1], who), from);
      }
    }
  }

  /** Guessing is bounded: since its counter was last cleared, an identity has had at most 19 passwords, or 9 codes or
      confirming passwords, checked in any 900 s of a clock that does not step back. */
  lemma GuessesBounded(c: Crypto, ts: seq<Tables>, es: seq<Event>, i: nat, who: Identity, from: Clock)
    requires IsRun(c, ts, es) && i <= |es| && NonDecreasing(Tries(ts, es, i, who))
    ensures TriesIn(Tries(ts, es, i, who), from) <= if who.LoginName? then 19 else 9
  {
    CountersTell(c, ts, es, i, who, from);
    FixedWindowBound(Tries(ts, es, i, who), Allowance(who), 900.0, from);
  }

  /** The route gets as far as checking a password or code of this identity, and refuses it. */
  predicate WrongGuess(c: Crypto, t: Tables, e: Event, who: Identity) {
    var reply := Step(c, t, e).1;
    match e
    case Login(name, _, _) => who == LoginName(name) && reply == Rejected(401)
    case Setup(r, _) => who == Manage(r.user) && reply == Rejected(400)
    case Verify(r) => r.cookie in t.challenges && who == SecondFactor(t.challenges[r.cookie].user) && reply == Rejected(400)
    case Enable(r) => who == SecondFactor(r.user) && HoldsPending(t, r) && reply == Rejected(400)
    case Regenerate(r) => WrongProof(t, r, who) && reply == Rejected(400)
    case Disable(r) => WrongProof(t, r, who) && reply == Rejected(400)
    case _ => false
  }

  predicate WrongProof(t: Tables, r: Request, who: Identity) {
    who == Manage(r.user) || (who == SecondFactor(r.user) && KnowsPassword(t, r.user, r))
  }

  lemma WrongProofCounts(c: Crypto, t: Tables, e: Event, who: Identity)
    requires (e.Regenerate? || e.Disable?) && WrongGuess(c, t, e, who)
    ensures var u := Step(c, t, e).0;
      who in u.attempts && u.attempts[who] == Counted(t, who, ReadingFor(e, who)).attempts[who]
  {
    ProofAnswers(c, t, e.request);
    if ProofOf(c, t, e.request).Proven? {
      ProvenLeaves(c, t, e);
      RefusedOnlyByProof(c, t, e);
    }
  }

  lemma RefusedOnlyByProof(c: Crypto, t: Tables, e: Event)
    requires (e.Regenerate? || e.Disable?) && ProofOf(c, t, e.request).Proven?
    ensures Step(c, t, e).1 != Rejected(400)
  {
  }

  lemma WrongGuessIsCounted(c: Crypto, t: Tables, e: Event, who: Identity)
    requires WrongGuess(c, t, e, who)
    ensures var u := Step(c, t, e).0;
      who in u.attempts && u.attempts[who] == Counted(t, who, ReadingFor(e, who)).attempts[who]
  {
    match e
    case Login(name, found, r) => LoginAnswers(t, name, found, r);
    case Setup(r, secret) => SetupAnswers(t, r, secret);
    case Verify(r) => VerifyAnswers(c, t, r);
    case Enable(r) => EnableAnswers(c, t, r);
    case Regenerate(_) => WrongProofCounts(c, t, e, who);
    case Disable(_) => WrongProofCounts(c, t, e, who);
    case _ =>
  }

  lemma CountedMoves(t: Tables, u: Tables, who: Identity, now: Clock)
    requires who in u.attempts && u.attempts[who] == Counted(t, who, now).attempts[who]
    ensures !Unmoved(t, u, who)
  {
  }

  /** Every wrong guess counts: the refused password of a login, the refused code of a second step or of an enrolment,
      and whatever proof a change of the second factor refuses. */
  lemma WrongGuessCounts(c: Crypto, ts: seq<Tables>, es: seq<Event>, i: nat, who: Identity)
    requires IsRun(c, ts, es) && i < |es| && WrongGuess(c, ts[i], es[i], who)
    ensures Tries(ts, es, i + 1, who) == Then(Tries(ts, es, i, who), ReadingFor(es[i], who))
  {
    assert ts[i + 1] == Step(c, ts[i], es[i]).0;
    WrongGuessIsCounted(c, ts[i], es[i], who);
    CountedMoves(ts[i], ts[i + 1], who, ReadingFor(es[i], who));
  }
}
