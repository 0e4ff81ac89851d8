/** What reservations, DKIM checks and their recovery answer, read off the rows, and the cap on an analysis' history. */
module EnrichmentAnswers {
  import opened Common
  import opened RateLimits
  import opened Enrichments
  import opened EnrichmentRuns
  import DkimExchange

  /* ---- One call ---- */

  /** The row repeats this request id. */
  predicate Repeats(rows: Rows, c: Call, id: Id) {
    c.requestId.Some? && id in rows && rows[id].requestId == c.requestId
  }

  /** The row is a submission of the same evidence to the same provider that is still pending. */
  predicate SubmittedAlready(rows: Rows, c: Call, id: Id) {
    && id in rows && rows[id].status == Pending
    && var f := rows[id].fingerprint;
    f.action == Submit && f.analysis == c.fingerprint.analysis && f.provider == c.fingerprint.provider && f.target == c.fingerprint.target
  }

  function HistoryOf(rows: Rows, analysis: Id): set<Id> {
    set id | id in rows && rows[id].fingerprint.analysis == analysis
  }

  /** A repeated request is answered from its row if it asks for the same thing, and refused if not. */
  lemma RepeatAnswers(t: Tables, c: Call, id: Id)
    requires UniqueRequestIds(t.rows) && Repeats(t.rows, c, id)
    ensures ReserveStep(t, c) == (t, if t.rows[id].fingerprint == c.fingerprint then Returned((id, true)) else Raised(KeyReused))
  {
    assert Carries(t.rows, c.requestId, id);
  }

  /** A new one is refused while the same submission is pending, when the analysis has 1000 rows, or when the provider's
      minute is used up; accepted, it leaves a pending row that may be polled after 30 s. */
  lemma ReserveAnswers(t: Tables, c: Call)
    requires forall id :: !Repeats(t.rows, c, id)
    ensures var (u, r) := ReserveStep(t, c);
      var f := c.fingerprint;
      if f.action == Submit && exists id :: SubmittedAlready(t.rows, c, id) then u == t && r == Raised(SubmissionPending)
      else if |HistoryOf(t.rows, f.analysis)| >= 1000 then u == t && r == Raised(HistoryFull)
      else if !RateStep(t.attempts, Attempt(f.provider, c.rateClock)).1 then u == t && r == Raised(RateLimited)
      else if c.id in t.rows then u == t && r == Raised(DuplicateId)
      else
        && r == Returned((c.id, false)) && u.rows == t.rows[c.id := Row(f, c.requestId, Pending, InProgress, c.pollClock + 30.0)]
        && u.audits == Then(t.audits, Reserved(c.id))
  {
    forall id ensures Carries(t.rows, c.requestId, id) <==> Repeats(t.rows, c, id) {
    }
    forall id ensures SameSubmission(t.rows, c.fingerprint, id) <==> SubmittedAlready(t.rows, c, id) {
    }
    assert HistoryOf(t.rows, c.fingerprint.analysis)
      == set id | id in t.rows && t.rows[id].fingerprint.analysis == c.fingerprint.analysis;
  }

  /** The row is a DKIM check of this analysis that has no result yet. */
  predicate ChecksNow(rows: Rows, analysis: Id, id: Id) {
    && id in rows && rows[id].status == Pending
    && rows[id].fingerprint.provider == Dkim && rows[id].fingerprint.action == Verify && rows[id].fingerprint.analysis == analysis
  }

  /** A check starts only where policy and evidence allow it and no other check of the analysis is pending. */
  lemma StartAnswers(t: Tables, c: Call, allowed: bool, evidence: bool)
    ensures var (u, r) := VerifyStep(t, c, allowed, evidence);
      var reserved := ReserveStep(t, c).1;
      if !allowed then u == t && r == Raised(Disabled)
      else if !evidence then u == t && r == Raised(EvidenceUnavailable)
      else if !reserved.Returned? || reserved.value.1 then u == t && r == reserved
      else if exists id :: ChecksNow(t.rows, c.fingerprint.analysis, id) then u == t && r == Raised(VerificationPending)
      else r == reserved && u.rows == t.rows[c.id := Row(c.fingerprint, c.requestId, Pending, InProgress, c.pollClock + 60.0)]
  {
    ReserveAllOrNothing(t, c);
    forall id ensures PendingCheck(t.rows, c.fingerprint.analysis, id) <==> ChecksNow(t.rows, c.fingerprint.analysis, id) {
    }
  }

  /** It can be given up from one minute after it started, and not before. */
  lemma StartedCheckLastsAMinute(t: Tables, c: Call, now: Clock)
    requires c.fingerprint.provider == Dkim && c.fingerprint.action == Verify
    requires VerifyStep(t, c, true, true).1.Returned? && !VerifyStep(t, c, true, true).1.value.1
    ensures var u := VerifyStep(t, c, true, true).0;
      RecoverStep(u, c.fingerprint.analysis, c.id, now).1.Returned? <==> now >= c.pollClock + 60.0
  {
    StartAnswers(t, c, true, true);
    ReserveAllOrNothing(t, c);
  }

  /** A verdict is kept as it came, as available unless the verification itself was unavailable; a row that has a result
      already answers with that. */
  lemma CompleteAnswers(t: Tables, id: Id, verdict: DkimExchange.Verdict)
    ensures var (u, r) := CompleteStep(t, id, verdict);
      if id !in t.rows then u == t && r == Raised(Gone)
      else if t.rows[id].status != Pending then u == t && r == Returned(t.rows[id])
      else
        var status := match verdict.verification
          case Unavailable => Status.Unavailable
          case Valid => Available
          case Invalid => Available
          case Unsigned => Available;
        && u.rows == t.rows[id := Row(t.rows[id].fingerprint, t.rows[id].requestId, status, Report.Checked(verdict), 0.0)]
        && r == Returned(u.rows[id]) && u.audits == Then(t.audits, DkimChecked(verdict)) && u.attempts == t.attempts
  {
  }

  /** Recovery closes an overdue check as unavailable and interrupted, and touches nothing else. */
  lemma RecoverAnswers(t: Tables, analysis: Id, id: Id, now: Clock)
    ensures var (u, r) := RecoverStep(t, analysis, id, now);
      if !(id in t.rows && t.rows[id].fingerprint.provider == Dkim && t.rows[id].fingerprint.action == Verify
           && t.rows[id].fingerprint.analysis == analysis) then u == t && r == Raised(NotFound)
      else if t.rows[id].status != Pending then u == t && r == Returned(t.rows[id])
      else if now < t.rows[id].pollAfter then u == t && r == Raised(StillActive)
      else
        && u.rows == t.rows[id := Row(t.rows[id].fingerprint, t.rows[id].requestId, Status.Unavailable, Interrupted, 0.0)]
        && r == Returned(u.rows[id]) && u.audits == Then(t.audits, DkimRecovered) && u.attempts == t.attempts
  {
  }

  /** A provider's result replaces status and report of its row; one that is still pending may be polled again after
      30 s. */
  lemma SaveAnswers(t: Tables, id: Id, status: Status, text: string, now: Clock)
    ensures var u := SaveStep(t, id, status, text, now);
      if id !in t.rows then u == t
      else
        var poll := match status case Pending => now + 30.0 case _ => 0.0;
        u == t.(rows := t.rows[id := Row(t.rows[id].fingerprint, t.rows[id].requestId, status, External(text), poll)])
  {
  }

  /* ---- The cap over runs ---- */

  lemma StepCapsHistory(t: Tables, e: Event, analysis: Id)
    requires Enabled(t, e) && |HistoryOf(t.rows, analysis)| <= 1000
    ensures |HistoryOf(Step(t, e).rows, analysis)| <= 1000
  {
    var u := Step(t, e);
    match e
    case Reserve(c) =>
      ReserveCapsHistory(t, u, c, analysis);
    case StartCheck(c, allowed, evidence) =>
      StartAllOrNothing(t, c, allowed, evidence);
      ReserveCapsHistory(t, ReserveStep(t, c).0, c, analysis);
      if u != t {
        StartAnswers(t, c, allowed, evidence);
        assert HistoryOf(u.rows, analysis) == HistoryOf(ReserveStep(t, c).0.rows, analysis);
      }
    case Complete(id, verdict) =>
      CompleteAnswers(t, id, verdict);
      assert HistoryOf(u.rows, analysis) == HistoryOf(t.rows, analysis);
    case Recover(a, id, now) =>
      RecoverAnswers(t, a, id, now);
      assert HistoryOf(u.rows, analysis) == HistoryOf(t.rows, analysis);
    case Save(_, _, _, _) =>
      assert HistoryOf(u.rows, analysis) == HistoryOf(t.rows, analysis);
  }

  lemma ReserveCapsHistory(t: Tables, u: Tables, c: Call, analysis: Id)
    requires |HistoryOf(t.rows, analysis)| <= 1000 && u == ReserveStep(t, c).0
    ensures |HistoryOf(u.rows, analysis)| <= 1000
  {
    ReserveAllOrNothing(t, c);
    var r := ReserveStep(t, c).1;
    if r.Returned? && !r.value.1 {
      forall id ensures !Repeats(t.rows, c, id) {
        assert !Carries(t.rows, c.requestId, id);
      }
      ReserveAnswers(t, c);
      if c.fingerprint.analysis == analysis {
        assert HistoryOf(u.rows, analysis) == HistoryOf(t.rows, analysis) + {c.id};
      } else {
        assert HistoryOf(u.rows, analysis) == HistoryOf(t.rows, analysis);
      }
    }
  }

  /** Over all runs an analysis never has more than a thousand enrichments. */
  lemma {:induction false} HistoryIsCapped(ts: seq<Tables>, es: seq<Event>, i: nat, analysis: Id)
    requires IsRun(ts, es) && i < |ts|
    ensures |HistoryOf(ts[i].rows, analysis)| <= 1000
  {
    if i == 0 {
      assert HistoryOf(ts[0].rows, analysis) == {};
    } else {
      HistoryIsCapped(ts, es, i - 1, analysis);
      StepCapsHistory(ts[i - 1], es[i - 1], analysis);
    }
  }
}
