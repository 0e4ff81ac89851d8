/** Every interleaving of DKIM checks, late finalizers, explicit recoveries and provider enrichments. */
module EnrichmentRuns {
  import opened Common
  import opened RateLimits
  import opened Enrichments
  import DkimExchange

  datatype Event =
    | StartCheck(call: Call, allowed: bool, evidence: bool)
    | Complete(id: Id, verdict: DkimExchange.Verdict)
    | Recover(analysis: Id, id: Id, now: Clock)
    | Reserve(call: Call)
    | Save(id: Id, status: Status, text: string, now: Clock)

  /** A check finalizes a DKIM row, and only the provider routes write results of provider rows. */
  ghost predicate Enabled(t: Tables, e: Event) {
    match e
    case StartCheck(c, _, _) => c.fingerprint.provider == Dkim && c.fingerprint.action == Verify
    case Complete(id, _) => id in t.rows ==> IsDkim(t.rows[id])
    case Recover(_, _, _) => true
    case Reserve(c) => c.fingerprint.provider != Dkim
    case Save(id, _, _, _) => id in t.rows ==> t.rows[id].fingerprint.provider != Dkim
  }

  ghost function Step(t: Tables, e: Event): Tables {
    match e
    case StartCheck(c, allowed, evidence) => VerifyStep(t, c, allowed, evidence).0
    case Complete(id, verdict) => CompleteStep(t, id, verdict).0
    case Recover(analysis, id, now) => RecoverStep(t, analysis, id, now).0
    case Reserve(c) => ReserveStep(t, c).0
    case Save(id, status, text, now) => SaveStep(t, id, status, text, now)
  }

  ghost predicate IsRun(ts: seq<Tables>, es: seq<Event>) {
    && |ts| == |es| + 1
    && ts[0] == Tables(map[], Start, Start)
    && forall i | 0 <= i < |es| :: Enabled(ts[i], es[i]) && ts[i + 1] == Step(ts[i], es[i])
  }

  ghost predicate OnePendingCheck(rows: Rows) {
    forall a, i, j | PendingCheck(rows, a, i) && PendingCheck(rows, a, j) :: i == j
  }

  ghost function ClosedChecks(rows: Rows): set<Id> {
    set id | id in rows && IsDkim(rows[id]) && rows[id].status != Pending
  }

  function TerminalAudits(audits: History<Audit>): nat {
    match audits
    case Start => 0
    case Then(before, a) => TerminalAudits(before) + if a.Reserved? then 0 else 1
  }

  ghost predicate Invariant(t: Tables) {
    && UniqueRequestIds(t.rows)
    && OnePendingCheck(t.rows)
    && (forall id | id in t.rows && t.rows[id].fingerprint.provider == Dkim :: IsDkim(t.rows[id]))
    && TerminalAudits(t.audits) == |ClosedChecks(t.rows)|
  }

  /** A reservation either adds one pending row, one rate slot and one event, or changes nothing. */
  lemma ReserveAllOrNothing(t: Tables, c: Call)
    ensures var (u, r) := ReserveStep(t, c);
      if r.Returned? && !r.value.1
      then
        && c.id !in t.rows && u.rows == t.rows[c.id := NewRow(c)] && u.audits == Then(t.audits, Reserved(c.id))
        && u.attempts.Then? && u.attempts.call == Attempt(c.fingerprint.provider, c.rateClock)
        && (forall id :: !Carries(t.rows, c.requestId, id)) && r.value.0 == c.id
      else u == t
  {
  }

  lemma StartAllOrNothing(t: Tables, c: Call, allowed: bool, evidence: bool)
    ensures var (u, r) := VerifyStep(t, c, allowed, evidence);
      if r.Returned? && !r.value.1
      then
        && c.id !in t.rows && u.audits == Then(t.audits, Reserved(c.id))
        && u.rows == t.rows[c.id := NewRow(c).(pollAfter := c.pollClock + 60.0)]
        && (forall id :: !Carries(t.rows, c.requestId, id))
        && (forall id :: !PendingCheck(t.rows, c.fingerprint.analysis, id))
      else u == t
  {
    ReserveAllOrNothing(t, c);
  }

  lemma AddedRowKeepsInvariant(t: Tables, u: Tables, c: Call, row: Row)
    requires Invariant(t) && c.id !in t.rows && u.rows == t.rows[c.id := row] && u.audits == Then(t.audits, Reserved(c.id))
    requires row.fingerprint == c.fingerprint && row.requestId == c.requestId && row.status == Pending
    requires forall id :: !Carries(t.rows, c.requestId, id)
    requires IsDkim(row) || row.fingerprint.provider != Dkim
    requires IsDkim(row) ==> forall id :: !PendingCheck(t.rows, c.fingerprint.analysis, id)
    ensures Invariant(u)
  {
    assert ClosedChecks(u.rows) == ClosedChecks(t.rows);
    forall k | k in t.rows ensures c.requestId.Some? ==> t.rows[k].requestId != c.requestId {
      assert !Carries(t.rows, c.requestId, k);
    }
    forall a, k | k in t.rows ensures PendingCheck(u.rows, a, k) <==> PendingCheck(t.rows, a, k) {}
  }

  lemma PersistKeepsInvariant(t: Tables, id: Id, report: Report, event: Audit)
    requires Invariant(t) && id in t.rows && IsDkim(t.rows[id]) && t.rows[id].status == Pending && !event.Reserved?
    ensures Invariant(PersistStep(t, id, report, event))
  {
    var u := PersistStep(t, id, report, event);
    assert ClosedChecks(u.rows) == ClosedChecks(t.rows) + {id};
    forall a, i, j | PendingCheck(u.rows, a, i) && PendingCheck(u.rows, a, j) ensures i == j {
      assert PendingCheck(t.rows, a, i) && PendingCheck(t.rows, a, j);
    }
  }

  lemma SaveKeepsInvariant(t: Tables, id: Id, status: Status, text: string, now: Clock)
    requires Invariant(t) && (id in t.rows ==> t.rows[id].fingerprint.provider != Dkim)
    ensures Invariant(SaveStep(t, id, status, text, now))
  {
    var u := SaveStep(t, id, status, text, now);
    assert ClosedChecks(u.rows) == ClosedChecks(t.rows);
    forall a, i, j | PendingCheck(u.rows, a, i) && PendingCheck(u.rows, a, j) ensures i == j {
      assert PendingCheck(t.rows, a, i) && PendingCheck(t.rows, a, j);
    }
  }

  lemma StepKeepsInvariant(t: Tables, e: Event)
    requires Invariant(t) && Enabled(t, e)
    ensures Invariant(Step(t, e))
  {
    match e
    case StartCheck(c, allowed, evidence) =>
      StartAllOrNothing(t, c, allowed, evidence);
      var (u, r) := VerifyStep(t, c, allowed, evidence);
      if r.Returned? && !r.value.1 { AddedRowKeepsInvariant(t, u, c, u.rows[c.id]); }
    case Complete(id, verdict) =>
      if id in t.rows && t.rows[id].status == Pending { PersistKeepsInvariant(t, id, Checked(verdict), DkimChecked(verdict)); }
    case Recover(analysis, id, now) =>
      if RecoverStep(t, analysis, id, now).0 != t { PersistKeepsInvariant(t, id, Interrupted, DkimRecovered); }
    case Reserve(c) =>
      ReserveAllOrNothing(t, c);
      var (u, r) := ReserveStep(t, c);
      if r.Returned? && !r.value.1 { AddedRowKeepsInvariant(t, u, c, u.rows[c.id]); }
    case Save(id, status, text, now) => SaveKeepsInvariant(t, id, status, text, now);
  }

  /** In every reachable state: request ids name one row each, at most one check per analysis is pending,
      and there are exactly as many terminal audit events as closed checks. */
  lemma {:induction false} InvariantHolds(ts: seq<Tables>, es: seq<Event>, i: nat)
    requires IsRun(ts, es) && i < |ts|
    ensures Invariant(ts[i])
  {
    if i > 0 {
      InvariantHolds(ts, es, i - 1);
      StepKeepsInvariant(ts[i - 1], es[i - 1]);
    }
  }

  /* ---- A check leaves pending once ---- */

  lemma StepSparesClosedChecks(t: Tables, e: Event, id: Id)
    requires Enabled(t, e) && id in t.rows && IsDkim(t.rows[id])
    ensures id in Step(t, e).rows && IsDkim(Step(t, e).rows[id])
    ensures t.rows[id].status != Pending ==> Step(t, e).rows[id] == t.rows[id]
  {
    match e
    case StartCheck(c, allowed, evidence) => StartAllOrNothing(t, c, allowed, evidence);
    case Reserve(c) => ReserveAllOrNothing(t, c);
    case _ =>
  }

  /** A closed check never changes again. */
  lemma {:induction false} ClosedCheckIsFinal(ts: seq<Tables>, es: seq<Event>, i: nat, k: nat, id: Id)
    requires IsRun(ts, es) && i <= k < |ts| && id in ts[i].rows && IsDkim(ts[i].rows[id]) && ts[i].rows[id].status != Pending
    ensures id in ts[k].rows && ts[k].rows[id] == ts[i].rows[id]
  {
    if i < k {
      ClosedCheckIsFinal(ts, es, i, k - 1, id);
      StepSparesClosedChecks(ts[k - 1], es[k - 1], id);
    }
  }

  /** The step that closes a check appends exactly one event, the terminal one, in the same transaction. */
  lemma ClosingStepAuditsOnce(t: Tables, e: Event, id: Id)
    requires Enabled(t, e) && id in t.rows && IsDkim(t.rows[id]) && t.rows[id].status == Pending
    requires Step(t, e).rows[id].status != Pending
    ensures (e.Complete? && e.id == id && Step(t, e).audits == Then(t.audits, DkimChecked(e.verdict)))
         || (e.Recover? && e.id == id && t.rows[id].pollAfter <= e.now && Step(t, e).audits == Then(t.audits, DkimRecovered))
    ensures Step(t, e).attempts == t.attempts && Step(t, e).rows == t.rows[id := Step(t, e).rows[id]]
  {
    match e
    case StartCheck(c, allowed, evidence) => StartAllOrNothing(t, c, allowed, evidence);
    case Reserve(c) => ReserveAllOrNothing(t, c);
    case _ =>
  }

  /** Over a run a check is closed by one event only. */
  lemma PendingIsLeftOnce(ts: seq<Tables>, es: seq<Event>, i: nat, k: nat, id: Id)
    requires IsRun(ts, es) && i < k < |es|
    requires id in ts[i].rows && IsDkim(ts[i].rows[id]) && ts[i].rows[id].status == Pending && ts[i + 1].rows[id].status != Pending
    ensures id in ts[k].rows && ts[k].rows[id].status != Pending && ts[k + 1].rows[id] == ts[i + 1].rows[id]
  {
    StepSparesClosedChecks(ts[i], es[i], id);
    ClosedCheckIsFinal(ts, es, i + 1, k, id);
    ClosedCheckIsFinal(ts, es, i + 1, k + 1, id);
  }

  /** A finalizer that comes after recovery gets the recovered result and changes nothing. */
  lemma LateFinalizerGetsRecoveredResult(ts: seq<Tables>, es: seq<Event>, i: nat, k: nat)
    requires IsRun(ts, es) && i < k < |es| && es[i].Recover? && es[k].Complete? && es[k].id == es[i].id
    requires ts[i + 1] != ts[i]
    ensures es[i].id in ts[k].rows && ts[k].rows[es[i].id].report == Interrupted
    ensures CompleteStep(ts[k], es[k].id, es[k].verdict) == (ts[k], Returned(ts[k].rows[es[i].id]))
  {
    ClosedCheckIsFinal(ts, es, i + 1, k, es[i].id);
  }

  /* ---- Idempotent reservations ---- */

  lemma StepKeepsRequests(t: Tables, e: Event, id: Id)
    requires Enabled(t, e) && id in t.rows
    ensures var u := Step(t, e);
      id in u.rows && u.rows[id].requestId == t.rows[id].requestId && u.rows[id].fingerprint == t.rows[id].fingerprint
  {
    match e
    case StartCheck(c, allowed, evidence) => StartAllOrNothing(t, c, allowed, evidence);
    case Reserve(c) => ReserveAllOrNothing(t, c);
    case _ =>
  }

  lemma {:induction false} RequestsPersist(ts: seq<Tables>, es: seq<Event>, i: nat, k: nat, id: Id)
    requires IsRun(ts, es) && i <= k < |ts| && id in ts[i].rows
    ensures id in ts[k].rows && ts[k].rows[id].requestId == ts[i].rows[id].requestId
      && ts[k].rows[id].fingerprint == ts[i].rows[id].fingerprint
  {
    if i < k {
      RequestsPersist(ts, es, i, k - 1, id);
      StepKeepsRequests(ts[k - 1], es[k - 1], id);
    }
  }

  /** At any later time a call with the request id of an existing row takes no row, no rate slot and no
      audit event: it returns that row when it asks for the same thing and is refused otherwise. */
  lemma ReplayTakesNothing(ts: seq<Tables>, es: seq<Event>, i: nat, k: nat, id: Id, c: Call)
    requires IsRun(ts, es) && i <= k < |ts| && id in ts[i].rows
    requires c.requestId.Some? && c.requestId == ts[i].rows[id].requestId
    ensures ReserveStep(ts[k], c) ==
      (ts[k], if c.fingerprint == ts[i].rows[id].fingerprint then Returned((id, true)) else Raised(KeyReused))
  {
    RequestsPersist(ts, es, i, k, id);
    InvariantHolds(ts, es, k);
    assert Carries(ts[k].rows, c.requestId, id);
    forall j | Carries(ts[k].rows, c.requestId, j) ensures j == id {}
  }

  /* ---- What the routes mean to each other ---- */

  /** Once a completion has returned, the answer stands: completing again, with any verdict, or recovering returns the
      same closed row and changes nothing; and no other row, slot or identity was touched. */
  lemma CompletionStands(t: Tables, id: Id, verdict: DkimExchange.Verdict, again: DkimExchange.Verdict, now: Clock)
    requires CompleteStep(t, id, verdict).1.Returned? && IsDkim(t.rows[id])
    ensures var (u, r) := CompleteStep(t, id, verdict);
      && r == Returned(u.rows[id]) && u.rows[id].status != Pending
      && CompleteStep(u, id, again) == (u, r) && RecoverStep(u, t.rows[id].fingerprint.analysis, id, now) == (u, r)
      && u.rows - {id} == t.rows - {id} && u.attempts == t.attempts
      && u.rows[id].fingerprint == t.rows[id].fingerprint && u.rows[id].requestId == t.rows[id].requestId
      && (t.rows[id].status == Pending ==> u.rows[id].report == Checked(verdict))
  {
  }

  /** A pending check can be recovered exactly once its deadline has passed. Before, asking changes nothing; after,
      a late verdict changes nothing, and the analysis has no pending check left to hold up a new one. */
  lemma RecoveryIffOverdue(t: Tables, analysis: Id, id: Id, now: Clock, verdict: DkimExchange.Verdict)
    requires PendingCheck(t.rows, analysis, id) && OnePendingCheck(t.rows)
    ensures var (u, r) := RecoverStep(t, analysis, id, now);
      && (r.Returned? <==> t.rows[id].pollAfter <= now) && (!r.Returned? ==> u == t)
      && (r.Returned? ==>
            && CompleteStep(u, id, verdict) == (u, r)
            && u.rows[id].report == Interrupted && u.rows - {id} == t.rows - {id} && u.attempts == t.attempts
            && forall other :: !PendingCheck(u.rows, analysis, other))
  {
    var (u, r) := RecoverStep(t, analysis, id, now);
    forall other ensures r.Returned? ==> !PendingCheck(u.rows, analysis, other) {
      if PendingCheck(u.rows, analysis, other) && other != id {
        assert other in t.rows && u.rows[other] == t.rows[other];
        assert PendingCheck(t.rows, analysis, other);
      }
    }
  }

  /* ---- The rate limit over runs ---- */

  /** The event commits a new reservation. */
  ghost predicate Reserves(t: Tables, e: Event) {
    match e
    case Reserve(c) => var r := ReserveStep(t, c).1; r.Returned? && !r.value.1
    case StartCheck(c, allowed, evidence) => var r := VerifyStep(t, c, allowed, evidence).1; r.Returned? && !r.value.1
    case _ => false
  }

  function AttemptOf(e: Event): Attempt
    requires e.Reserve? || e.StartCheck?
  {
    Attempt(e.call.fingerprint.provider, e.call.rateClock)
  }

  /** The reservations committed by the first i events, with their readings of the clock. */
  ghost function Reservations(ts: seq<Tables>, es: seq<Event>, i: nat): History<Attempt>
    requires i <= |es| && |ts| == |es| + 1
  {
    if i == 0 then Start
    else if Reserves(ts[i - 1], es[i - 1]) then Then(Reservations(ts, es, i - 1), AttemptOf(es[i - 1]))
    else Reservations(ts, es, i - 1)
  }

  /** How many of these reservations are for the provider, at a reading in (from, to]. */
  function ReservedIn(h: History<Attempt>, provider: Provider, from: Clock, to: Clock): nat {
    match h
    case Start => 0
    case Then(before, a) =>
      ReservedIn(before, provider, from, to) + if a.provider == provider && from < a.at <= to then 1 else 0
  }

  lemma ReserveMovesTable(t: Tables, c: Call)
    ensures var (u, r) := ReserveStep(t, c);
      var (attempts, admitted) := RateStep(t.attempts, Attempt(c.fingerprint.provider, c.rateClock));
      if r.Returned? && !r.value.1 then admitted && u.attempts == attempts && u.rows.Keys == t.rows.Keys + {c.id} && c.id !in t.rows
      else u == t
  {
  }

  lemma StartMovesTable(t: Tables, c: Call, allowed: bool, evidence: bool)
    ensures var (u, r) := VerifyStep(t, c, allowed, evidence);
      var (attempts, admitted) := RateStep(t.attempts, Attempt(c.fingerprint.provider, c.rateClock));
      if r.Returned? && !r.value.1 then admitted && u.attempts == attempts && u.rows.Keys == t.rows.Keys + {c.id} && c.id !in t.rows
      else u == t
  {
    ReserveMovesTable(t, c);
  }

  /** A committed reservation takes one rate slot and one row; nothing else touches the attempts table. */
  lemma StepMovesTable(t: Tables, e: Event)
    ensures var u := Step(t, e);
      if Reserves(t, e)
      then RateStep(t.attempts, AttemptOf(e)) == (u.attempts, true) && e.call.id !in t.rows && u.rows.Keys == t.rows.Keys + {e.call.id}
      else u.attempts == t.attempts && u.rows.Keys == t.rows.Keys
  {
    match e
    case Reserve(c) => ReserveMovesTable(t, c);
    case StartCheck(c, allowed, evidence) => StartMovesTable(t, c, allowed, evidence);
    case Complete(id, verdict) => CompleteMovesNothing(t, id, verdict);
    case Recover(analysis, id, now) => RecoverMovesNothing(t, analysis, id, now);
    case Save(_, _, _, _) =>
  }

  lemma CompleteMovesNothing(t: Tables, id: Id, verdict: DkimExchange.Verdict)
    ensures var u := CompleteStep(t, id, verdict).0; u.attempts == t.attempts && u.rows.Keys == t.rows.Keys
  {
  }

  lemma RecoverMovesNothing(t: Tables, analysis: Id, id: Id, now: Clock)
    ensures var u := RecoverStep(t, analysis, id, now).0; u.attempts == t.attempts && u.rows.Keys == t.rows.Keys
  {
  }

  /** The attempts table is that of the committed reservations, each of which was admitted. */
  lemma {:induction false} TableOfReservations(ts: seq<Tables>, es: seq<Event>, i: nat, provider: Provider, from: Clock, to: Clock)
    requires IsRun(ts, es) && i <= |es|
    ensures var h := Reservations(ts, es, i);
      ts[i].attempts == Table(h) && AdmittedIn(h, provider, from, to) == ReservedIn(h, provider, from, to)
  {
    if i > 0 {
      TableOfReservations(ts, es, i - 1, provider, from, to);
      StepMovesTable(ts[i - 1], es[i - 1]);
    }
  }

  /** In every run whose committed reservations read a clock that steps back by at most 3540 s, no minute sees more
      reservations for a provider than its limit. */
  lemma RunsKeepTheLimit(ts: seq<Tables>, es: seq<Event>, i: nat, provider: Provider, t: Clock)
    requires IsRun(ts, es) && i <= |es| && ClockSlack(Reservations(ts, es, i), 3540.0)
    ensures ReservedIn(Reservations(ts, es, i), provider, t - 60.0, t) <= if provider == VirusTotal then 4 else 10
  {
    TableOfReservations(ts, es, i, provider, t - 60.0, t);
    SlidingWindowBound(Reservations(ts, es, i), provider, t);
  }
}
