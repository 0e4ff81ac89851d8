/** What holds over whole runs of the second factor. */
module MfaTheorems {
  import opened Common
  import opened Mfa
  import opened MfaRuns

  predicate HasSession(t: Tables, user: Id, token: Digest) {
    token in t.sessions && t.sessions[token].user == user
  }

  /* ---- Session provenance ---- */

  /** A login opens a session only for a user without a second factor, and keeps just those that had not run out. */
  lemma LoginOpens(t: Tables, name: string, found: Option<Id>, r: Request)
    requires LoginStep(t, name, found, r).1.SessionIssued?
    ensures found.Some? && !Enrolled(t, found.value)
    ensures LoginStep(t, name, found, r).0.sessions
      == Live(t.sessions, r.at.issue)[r.token := Ticket(found.value, r.at.issue + 28800.0)]
  {
  }

  lemma LoginOpensNothing(t: Tables, name: string, found: Option<Id>, r: Request)
    requires !LoginStep(t, name, found, r).1.SessionIssued?
    ensures var u := LoginStep(t, name, found, r).0; u.sessions == t.sessions || u.sessions == t.sessions - {r.cookie}
  {
  }

  lemma LoginKeepsSessions(t: Tables, name: string, found: Option<Id>, r: Request, user: Id, token: Digest)
    requires var u := LoginStep(t, name, found, r).0; HasSession(u, user, token) && Enrolled(u, user)
    ensures HasSession(t, user, token) && Enrolled(t, user)
  {
    LoginKeepsUsers(t, name, found, r);
    if LoginStep(t, name, found, r).1.SessionIssued? {
      LoginOpens(t, name, found, r);
      assert token != r.token ==> token in Live(t.sessions, r.at.issue);
    } else {
      LoginOpensNothing(t, name, found, r);
    }
  }

  lemma CompletedSessions(t: Tables, u: Tables, e: Event, actor: Id, f: Factor, user: Id, token: Digest)
    requires (e.Verify? || e.Enable? || e.Regenerate? || e.Disable?) && Completed(t, u, e, actor, f)
    requires HasSession(u, user, token) && Enrolled(u, user)
    ensures (!e.Disable? && e.request.token == token && actor == user) || (HasSession(t, user, token) && Enrolled(t, user))
  {
  }

  /** The routes that complete no factor. */
  lemma OtherSessions(c: Crypto, t: Tables, e: Event, user: Id, token: Digest)
    requires !e.Verify? && !e.Enable? && !e.Regenerate? && !e.Disable?
    requires HasSession(Step(c, t, e).0, user, token) && Enrolled(Step(c, t, e).0, user)
    ensures HasSession(t, user, token) && Enrolled(t, user)
  {
    OtherUserEffect(c, t, e, user);
    match e
    case Login(name, found, r) => LoginKeepsSessions(t, name, found, r, user, token);
    case _ =>
  }

  /** A session of an enrolled user was issued by this event against a factor, or was already there under
      the same enrolment. */
  lemma SessionEffect(c: Crypto, t: Tables, e: Event, user: Id, token: Digest)
    requires HasSession(Step(c, t, e).0, user, token) && Enrolled(Step(c, t, e).0, user)
    ensures IssuesTo(c, t, e, user, token) || (HasSession(t, user, token) && Enrolled(t, user))
  {
    var (u, reply) := Step(c, t, e);
    if e.Verify? || e.Enable? || e.Regenerate? || e.Disable? {
      FactorOutcome(c, t, e, u, reply);
      if reply.SessionIssued? {
        CompletedSessions(t, u, e, Actor(t, e).value, reply.factor.value, user, token);
      }
    } else {
      OtherSessions(c, t, e, user, token);
    }
  }

  /** The session was issued by event m against a factor accepted then, and the user has stayed enrolled
      ever since, so that factor belongs to the current enrolment. */
  ghost predicate ProvenBy(c: Crypto, ts: seq<Tables>, es: seq<Event>, m: int, i: nat, user: Id, token: Digest)
    requires |ts| == |es| + 1 && i < |ts|
  {
    0 <= m < i && IssuesTo(c, ts[m], es[m], user, token) && forall n | m < n <= i :: Enrolled(ts[n], user)
  }

  /** While a user's second factor is enabled, every session row of that user was issued after a factor
      accepted under the current enrolment. */
  lemma {:induction false} SessionsProvenByFactor(c: Crypto, ts: seq<Tables>, es: seq<Event>, i: nat, user: Id, token: Digest)
    requires IsRun(c, ts, es) && i < |ts| && Enrolled(ts[i], user) && HasSession(ts[i], user, token)
    ensures exists m :: ProvenBy(c, ts, es, m, i, user, token)
  {
    if i > 0 {
      SessionEffect(c, ts[i - 1], es[i - 1], user, token);
      if IssuesTo(c, ts[i - 1], es[i - 1], user, token) {
        assert ProvenBy(c, ts, es, i - 1, i, user, token);
      } else {
        SessionsProvenByFactor(c, ts, es, i - 1, user, token);
        var m :| ProvenBy(c, ts, es, m, i - 1, user, token);
        assert ProvenBy(c, ts, es, m, i, user, token);
      }
    }
  }

  /* ---- One-time codes are one-time ---- */

  lemma StepsOrdered(a: Clock, b: Clock)
    requires a <= b
    ensures CurrentStep(a) <= CurrentStep(b)
  {
  }

  /** The factors a run accepts for one user, event by event. */
  function Factors(c: Crypto, ts: seq<Tables>, es: seq<Event>, user: Id): seq<Option<Factor>>
    requires |ts| == |es| + 1
  {
    seq(|es|, i requires 0 <= i < |es| => AcceptedFactor(c, ts[i], es[i], user))
  }

  /** A one-time code accepted at a clock reading within [t1, t2]. */
  predicate TotpWithin(f: Option<Factor>, t1: Clock, t2: Clock) {
    f.Some? && f.value.Totp? && t1 <= f.value.at <= t2
  }

  function TotpCount(fs: seq<Option<Factor>>, lo: nat, hi: nat, t1: Clock, t2: Clock): nat
    requires lo <= hi <= |fs|
  {
    if lo == hi then 0 else TotpCount(fs, lo, hi - 1, t1, t2) + (if TotpWithin(fs[hi - 1], t1, t2) then 1 else 0)
  }

  /** Where a step lies among the steps that readings in [t1, t2] may accept. */
  function Clamp(step: int, t1: Clock, t2: Clock): int {
    var low, high := CurrentStep(t1) - 2, CurrentStep(t2) + 1;
    if step < low then low else if step > high then high else step
  }

  /** How the last accepted step of an enrolled user answers to an accepted factor. */
  ghost predicate Advances(before: int, f: Option<Factor>, after: int) {
    && before <= after
    && (f.Some? && f.value.Totp? ==> StepWithin(f.value) && before < f.value.step && after == f.value.step)
  }

  lemma LastStepAdvances(c: Crypto, t: Tables, e: Event, user: Id)
    requires Enrolled(Step(c, t, e).0, user)
    ensures Advances(LastStep(t, user), AcceptedFactor(c, t, e, user), LastStep(Step(c, t, e).0, user))
  {
    StepUserEffect(c, t, e, user);
  }

  lemma {:induction false} CountAdvances(fs: seq<Option<Factor>>, last: seq<int>, lo: nat, hi: nat, t1: Clock, t2: Clock)
    requires lo <= hi <= |fs| && |last| == |fs| + 1 && t1 <= t2
    requires forall n | lo <= n < hi :: Advances(last[n], fs[n], last[n + 1])
    ensures last[lo] <= last[hi]
    ensures TotpCount(fs, lo, hi, t1, t2) <= Clamp(last[hi], t1, t2) - Clamp(last[lo], t1, t2)
  {
    if lo < hi {
      CountAdvances(fs, last, lo, hi - 1, t1, t2);
      var f := fs[hi - 1];
      assert Advances(last[hi - 1], f, last[hi]);
      if TotpWithin(f, t1, t2) {
        StepsOrdered(t1, f.value.at);
        StepsOrdered(f.value.at, t2);
      }
    }
  }

  function LastSteps(ts: seq<Tables>, user: Id): seq<int> {
    seq(|ts|, i requires 0 <= i < |ts| => LastStep(ts[i], user))
  }

  lemma RunAdvances(c: Crypto, ts: seq<Tables>, es: seq<Event>, lo: nat, hi: nat, user: Id)
    requires IsRun(c, ts, es) && lo <= hi <= |es| && forall n | lo < n <= hi :: Enrolled(ts[n], user)
    ensures forall n | lo <= n < hi ::
      Advances(LastSteps(ts, user)[n], Factors(c, ts, es, user)[n], LastSteps(ts, user)[n + 1])
  {
    forall n | lo <= n < hi
      ensures Advances(LastStep(ts[n], user), AcceptedFactor(c, ts[n], es[n], user), LastStep(ts[n + 1], user))
    {
      assert ts[n + 1] == Step(c, ts[n], es[n]).0 && Enrolled(ts[n + 1], user);
      LastStepAdvances(c, ts[n], es[n], user);
    }
  }

  /** Replay protection (section 5.2 of RFC 6238) as a bound: within one enrolment, however often codes are
      tried and whatever the clock does, at most t2/30 - t1/30 + 3 codes are accepted at readings in
      [t1, t2]. */
  lemma TotpAcceptancesBounded(c: Crypto, ts: seq<Tables>, es: seq<Event>, lo: nat, hi: nat, user: Id, t1: Clock, t2: Clock)
    requires IsRun(c, ts, es) && lo <= hi <= |es| && t1 <= t2
    requires forall n | lo < n <= hi :: Enrolled(ts[n], user)
    ensures TotpCount(Factors(c, ts, es, user), lo, hi, t1, t2) <= CurrentStep(t2) - CurrentStep(t1) + 3
  {
    RunAdvances(c, ts, es, lo, hi, user);
    CountAdvances(Factors(c, ts, es, user), LastSteps(ts, user), lo, hi, t1, t2);
    StepsOrdered(t1, t2);
  }

  lemma {:induction false} LaterStepsAreGreater(fs: seq<Option<Factor>>, last: seq<int>, i: nat, k: nat)
    requires i < k < |fs| && |last| == |fs| + 1
    requires forall n | i <= n <= k :: Advances(last[n], fs[n], last[n + 1])
    requires fs[i].Some? && fs[i].value.Totp? && fs[k].Some? && fs[k].value.Totp?
    ensures fs[i].value.step < fs[k].value.step
  {
    CountAdvances(fs, last, i + 1, k, 0.0, 0.0);
    assert Advances(last[i], fs[i], last[i + 1]);
    assert Advances(last[k], fs[k], last[k + 1]);
  }

  /** No time step is accepted twice in one enrolment: a later code always carries a later step. */
  lemma StepAcceptedOnce(c: Crypto, ts: seq<Tables>, es: seq<Event>, i: nat, k: nat, user: Id)
    requires IsRun(c, ts, es) && i < k < |es| && forall n | i < n <= k + 1 :: Enrolled(ts[n], user)
    requires var fs := Factors(c, ts, es, user);
      fs[i].Some? && fs[i].value.Totp? && fs[k].Some? && fs[k].value.Totp?
    ensures Factors(c, ts, es, user)[i].value.step < Factors(c, ts, es, user)[k].value.step
  {
    RunAdvances(c, ts, es, i, k + 1, user);
    LaterStepsAreGreater(Factors(c, ts, es, user), LastSteps(ts, user), i, k);
  }

  /* ---- Recovery codes are conserved ---- */

  /** This event issues ten new recovery codes to the user. */
  predicate Generates(e: Event, f: Option<Factor>) {
    (e.Enable? || e.Regenerate?) && f.Some?
  }

  function RecoveryUses(fs: seq<Option<Factor>>, lo: nat, hi: nat): nat
    requires lo <= hi <= |fs|
  {
    if lo == hi then 0
    else RecoveryUses(fs, lo, hi - 1) + (if fs[hi - 1].Some? && fs[hi - 1].value.RecoveryCode? then 1 else 0)
  }

  lemma {:induction false} DistinctDigests(codes: seq<Digest>)
    requires forall i, j | 0 <= i < j < |codes| :: codes[i] != codes[j]
    ensures |DigestSet(codes)| == |codes|
  {
    if codes != [] {
      var front, last := codes[..|codes| - 1], codes[|codes| - 1];
      DistinctDigests(front);
      assert codes == front + [last];
      assert DigestSet(codes) == DigestSet(front) + {last};
    }
  }

  /** One step of an enrolled user: ten fresh codes, or one code less exactly when one was used. */
  ghost predicate CodesMove(before: nat, e: Event, f: Option<Factor>, after: nat) {
    if Generates(e, f) then after == 10
    else after == before - if f.Some? && f.value.RecoveryCode? then 1 else 0
  }

  lemma StepMovesCodes(c: Crypto, t: Tables, e: Event, user: Id)
    requires Enrolled(Step(c, t, e).0, user)
    ensures CodesMove(|CodesOf(t, user)|, e, AcceptedFactor(c, t, e, user), |CodesOf(Step(c, t, e).0, user)|)
  {
    StepUserEffect(c, t, e, user);
    if Generates(e, AcceptedFactor(c, t, e, user)) {
      DistinctDigests(e.request.codes);
    }
  }

  lemma {:induction false} CodesAddUp(fs: seq<Option<Factor>>, es: seq<Event>, sizes: seq<nat>, g: nat, i: nat)
    requires g < i <= |fs| == |es| && |sizes| == |fs| + 1
    requires forall n | g <= n < i :: CodesMove(sizes[n], es[n], fs[n], sizes[n + 1])
    requires Generates(es[g], fs[g]) && forall n | g < n < i :: !Generates(es[n], fs[n])
    ensures sizes[i] + RecoveryUses(fs, g + 1, i) == 10
  {
    assert CodesMove(sizes[i - 1], es[i - 1], fs[i - 1], sizes[i]);
    if i > g + 1 {
      CodesAddUp(fs, es, sizes, g, i - 1);
    }
  }

  function CodeCounts(ts: seq<Tables>, user: Id): seq<nat> {
    seq(|ts|, i requires 0 <= i < |ts| => |CodesOf(ts[i], user)|)
  }

  /** From one generation of codes until the next, unused codes and uses add up to ten: no code is lost, and
      none works twice. */
  lemma RecoveryCodesConserved(c: Crypto, ts: seq<Tables>, es: seq<Event>, g: nat, i: nat, user: Id)
    requires IsRun(c, ts, es) && g < i <= |es| && forall n | g < n <= i :: Enrolled(ts[n], user)
    requires Generates(es[g], Factors(c, ts, es, user)[g])
    requires forall n | g < n < i :: !Generates(es[n], Factors(c, ts, es, user)[n])
    ensures |CodesOf(ts[i], user)| + RecoveryUses(Factors(c, ts, es, user), g + 1, i) == 10
  {
    forall n | g <= n < i
      ensures CodesMove(CodeCounts(ts, user)[n], es[n], Factors(c, ts, es, user)[n], CodeCounts(ts, user)[n + 1])
    {
      assert ts[n + 1] == Step(c, ts[n], es[n]).0 && Enrolled(ts[n + 1], user);
      StepMovesCodes(c, ts[n], es[n], user);
    }
    CodesAddUp(Factors(c, ts, es, user), es, CodeCounts(ts, user), g, i);
  }
}
