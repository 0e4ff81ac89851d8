/** Enrichment rows: idempotent reservation (backend/investigation/enrichment_api.py, reserve) and the
    life of a DKIM verification row (backend/investigation/dkim_api.py). */
module Enrichments {
  import opened Common
  import opened RateLimits
  import DkimExchange

  datatype Action = Verify | Consult | Submit

  datatype Target = Target(kind: string, value: string)

  /** The fields whose JSON text is stored as request_fingerprint. */
  datatype Fingerprint = Fingerprint(
    analysis: Id, user: Id, provider: Provider, action: Action, target: Target, visibility: Option<string>)

  datatype Status = Pending | Available | Unknown | Unavailable | Error

  datatype Report = InProgress | Checked(verdict: DkimExchange.Verdict) | Interrupted | External(text: string)

  datatype Row = Row(fingerprint: Fingerprint, requestId: Option<string>, status: Status, report: Report, pollAfter: Clock)

  type Rows = map<Id, Row>

  datatype Audit = Reserved(id: Id) | DkimChecked(verdict: DkimExchange.Verdict) | DkimRecovered

  datatype Tables = Tables(rows: Rows, attempts: History<Attempt>, audits: History<Audit>)

  datatype Failure = Disabled | EvidenceUnavailable | KeyReused | SubmissionPending | HistoryFull | RateLimited
                   | DuplicateId | VerificationPending | Gone | NotFound | StillActive

  /** One reservation: what is asked, the identifier drawn for its row and the clock readings it takes. */
  datatype Call = Call(fingerprint: Fingerprint, requestId: Option<string>, id: Id, rateClock: Clock, pollClock: Clock)

  predicate Carries(rows: Rows, requestId: Option<string>, id: Id) {
    requestId.Some? && id in rows && rows[id].requestId == requestId
  }

  predicate SameSubmission(rows: Rows, f: Fingerprint, id: Id) {
    && id in rows && rows[id].status == Pending && rows[id].fingerprint.action == Submit
    && rows[id].fingerprint.analysis == f.analysis && rows[id].fingerprint.provider == f.provider
    && rows[id].fingerprint.target == f.target
  }

  function HistorySize(rows: Rows, analysis: Id): nat {
    |set id | id in rows && rows[id].fingerprint.analysis == analysis|
  }

  ghost predicate UniqueRequestIds(rows: Rows) {
    forall i, j | i in rows && j in rows && rows[i].requestId.Some? && rows[i].requestId == rows[j].requestId :: i == j
  }

  function NewRow(c: Call): Row {
    Row(c.fingerprint, c.requestId, Pending, InProgress, c.pollClock + 30.0)
  }

  /** Returns the row's id and whether it already existed. */
  ghost function ReserveStep(t: Tables, c: Call): (Tables, Outcome<(Id, bool), Failure>) {
    var f := c.fingerprint;
    if exists id :: Carries(t.rows, c.requestId, id) then
      var id :| Carries(t.rows, c.requestId, id);
      if t.rows[id].fingerprint == f then (t, Returned((id, true))) else (t, Raised(KeyReused))
    else if f.action == Submit && exists id :: SameSubmission(t.rows, f, id) then (t, Raised(SubmissionPending))
    else if HistorySize(t.rows, f.analysis) >= 1000 then (t, Raised(HistoryFull))
    else
      var (attempts, admitted) := RateStep(t.attempts, Attempt(f.provider, c.rateClock));
      if !admitted then (t, Raised(RateLimited))
      else if c.id in t.rows then (t, Raised(DuplicateId))
      else
        (Tables(t.rows[c.id := NewRow(c)], attempts, Then(t.audits, Reserved(c.id))), Returned((c.id, false)))
  }

  predicate IsDkim(row: Row) {
    row.fingerprint.provider == Dkim && row.fingerprint.action == Verify
  }

  predicate PendingCheck(rows: Rows, analysis: Id, id: Id) {
    id in rows && IsDkim(rows[id]) && rows[id].fingerprint.analysis == analysis && rows[id].status == Pending
  }

  /** First transaction of verify_dkim: the row to work on and whether the answer is already there. */
  ghost function VerifyStep(t: Tables, c: Call, allowed: bool, evidence: bool): (Tables, Outcome<(Id, bool), Failure>) {
    if !allowed then (t, Raised(Disabled))
    else if !evidence then (t, Raised(EvidenceUnavailable))
    else
      var (u, r) := ReserveStep(t, c);
      if !r.Returned? || r.value.1 then (t, r)
      else if exists id :: PendingCheck(t.rows, c.fingerprint.analysis, id) then (t, Raised(VerificationPending))
      else (u.(rows := u.rows[c.id := NewRow(c).(pollAfter := c.pollClock + 60.0)]), r)
  }

  function Closed(row: Row, report: Report): Row {
    row.(status := if report.Checked? && report.verdict.verification != DkimExchange.Unavailable then Available else Unavailable,
         report := report, pollAfter := 0.0)
  }

  /** persist_terminal: the row's end and its audit event become visible together. */
  function PersistStep(t: Tables, id: Id, report: Report, event: Audit): Tables
    requires id in t.rows
  {
    t.(rows := t.rows[id := Closed(t.rows[id], report)], audits := Then(t.audits, event))
  }

  function CompleteStep(t: Tables, id: Id, verdict: DkimExchange.Verdict): (Tables, Outcome<Row, Failure>) {
    if id !in t.rows then (t, Raised(Gone))
    else if t.rows[id].status != Pending then (t, Returned(t.rows[id]))
    else (PersistStep(t, id, Checked(verdict), DkimChecked(verdict)), Returned(Closed(t.rows[id], Checked(verdict))))
  }

  function RecoverStep(t: Tables, analysis: Id, id: Id, now: Clock): (Tables, Outcome<Row, Failure>) {
    if id !in t.rows || !IsDkim(t.rows[id]) || t.rows[id].fingerprint.analysis != analysis then (t, Raised(NotFound))
    else if t.rows[id].status != Pending then (t, Returned(t.rows[id]))
    else if t.rows[id].pollAfter > now then (t, Raised(StillActive))
    else (PersistStep(t, id, Interrupted, DkimRecovered), Returned(Closed(t.rows[id], Interrupted)))
  }

  /** save_result: how the provider routes conclude, or keep pending, a row of their own. */
  function SaveStep(t: Tables, id: Id, status: Status, text: string, now: Clock): Tables {
    if id !in t.rows then t
    else t.(rows := t.rows[id := t.rows[id].(status := status, report := External(text),
                                             pollAfter := if status == Pending then now + 30.0 else 0.0)])
  }

  class EnrichmentTables {
    var rows: Rows
    var attempts: History<Attempt>
    var audits: History<Audit>

    ghost function Contents(): Tables
      reads this
    {
      Tables(rows, attempts, audits)
    }

    constructor ()
      ensures Contents() == Tables(map[], Start, Start)
    {
      rows, attempts, audits := map[], Start, Start;
    }

    /** reserve_rate: prunes, counts, and adds the call, or raises and keeps the rows as they were. */
    method ReserveRate(provider: Provider, clock: Clock) returns (admitted: bool)
      modifies this`attempts
      ensures (attempts, admitted) == RateStep(old(attempts), Attempt(provider, clock))
    {
      var saved := attempts;
      attempts := Pruned(attempts, clock - 3600.0);
      var used := Used(attempts, provider, clock - 60.0);
      if used >= Limit(provider) {
        attempts := saved;
        return false;
      }
      attempts := Then(attempts, Attempt(provider, clock));
      admitted := true;
    }

    method Reserve(c: Call) returns (r: Outcome<(Id, bool), Failure>)
      requires UniqueRequestIds(rows)
      modifies this
      ensures (Contents(), r) == ReserveStep(old(Contents()), c)
    {
      var f := c.fingerprint;
      var previous := set id | id in rows && Carries(rows, c.requestId, id);
      if previous != {} {
        var id :| id in previous;
        assert forall j | Carries(rows, c.requestId, j) :: j == id;
        if rows[id].fingerprint != f {
          return Raised(KeyReused);
        }
        return Returned((id, true));
      }
      assert forall j | j in rows :: Carries(rows, c.requestId, j) ==> j in previous;
      if f.action == Submit {
        var pending := set id | id in rows && SameSubmission(rows, f, id);
        assert forall j | j in rows :: SameSubmission(rows, f, j) ==> j in pending;
        if pending != {} {
          assert exists id :: id in pending && SameSubmission(rows, f, id);
          return Raised(SubmissionPending);
        }
      }
      if HistorySize(rows, f.analysis) >= 1000 {
        return Raised(HistoryFull);
      }
      var savedAttempts := attempts;
      var admitted := ReserveRate(f.provider, c.rateClock);
      if !admitted {
        return Raised(RateLimited);
      }
      if c.id in rows {
        attempts := savedAttempts;
        return Raised(DuplicateId);
      }
      rows := rows[c.id := Row(f, c.requestId, Pending, InProgress, c.pollClock + 30.0)];
      audits := Then(audits, Reserved(c.id));
      r := Returned((c.id, false));
    }

    /** Reserves first and looks for another pending check afterwards: raising then takes the new row, its
        rate slot and its audit event back. */
    method StartVerification(c: Call, allowed: bool, evidence: bool) returns (r: Outcome<(Id, bool), Failure>)
      requires UniqueRequestIds(rows) && c.fingerprint.provider == Dkim && c.fingerprint.action == Verify
      modifies this
      ensures (Contents(), r) == VerifyStep(old(Contents()), c, allowed, evidence)
    {
      if !allowed {
        return Raised(Disabled);
      }
      if !evidence {
        return Raised(EvidenceUnavailable);
      }
      ghost var before := Contents();
      var savedRows, savedAttempts, savedAudits := rows, attempts, audits;
      r := Reserve(c);
      if !r.Returned? || r.value.1 {
        return;
      }
      var pending := set id | id in rows && PendingCheck(rows, c.fingerprint.analysis, id) && id != c.id;
      assert forall id :: PendingCheck(before.rows, c.fingerprint.analysis, id) <==> id in pending;
      if pending != {} {
        rows, attempts, audits := savedRows, savedAttempts, savedAudits;
        return Raised(VerificationPending);
      }
      rows := rows[c.id := rows[c.id].(pollAfter := c.pollClock + 60.0)];
    }

    method Complete(id: Id, verdict: DkimExchange.Verdict) returns (r: Outcome<Row, Failure>)
      modifies this
      ensures (Contents(), r) == CompleteStep(old(Contents()), id, verdict)
    {
      if id !in rows {
        return Raised(Gone);
      }
      if rows[id].status != Pending {
        return Returned(rows[id]);
      }
      var status := if verdict.verification == DkimExchange.Unavailable then Unavailable else Available;
      rows := rows[id := rows[id].(status := status, report := Checked(verdict), pollAfter := 0.0)];
      audits := Then(audits, DkimChecked(verdict));
      r := Returned(rows[id]);
    }

    method Recover(analysis: Id, id: Id, now: Clock) returns (r: Outcome<Row, Failure>)
      modifies this
      ensures (Contents(), r) == RecoverStep(old(Contents()), analysis, id, now)
    {
      if id !in rows || !IsDkim(rows[id]) || rows[id].fingerprint.analysis != analysis {
        return Raised(NotFound);
      }
      if rows[id].status != Pending {
        return Returned(rows[id]);
      }
      if rows[id].pollAfter > now {
        return Raised(StillActive);
      }
      rows := rows[id := rows[id].(status := Unavailable, report := Interrupted, pollAfter := 0.0)];
      audits := Then(audits, DkimRecovered);
      r := Returned(rows[id]);
    }
  }
}
