/** Replies to a reporter (backend/investigation/workflows.py): each route's transaction as a
    function on the reply rows, and the routes themselves as updates of those rows. */
module Replies {
  import opened Common

  datatype Status = Draft | Sending | Accepted | Uncertain | Failed

  /** What the transport is handed. */
  datatype Content = Content(recipient: string, subject: string, body: string)

  datatype Reply = Reply(
    analysis: Option<Id>, content: Content, status: Status, revision: nat,
    sentBy: Option<Id>, transportError: bool, proof: string, resolvedBy: Option<Id>)

  type Rows = map<Id, Reply>

  datatype Error = NotFound | Conflict | Locked | ScopeRejected | AnalysisFixed | MailRejected | NoTransport | Undecided

  /** The form an analyst submits, with what two looks at other tables come to: `scopeAllows`, campaign, case and
      mail exist and belong together; `mailAllows`, the named mail exists and belongs to the reply's case. */
  datatype ReplyInput = ReplyInput(
    content: Content, analysis: Option<Id>, revision: Option<nat>, scopeAllows: bool, mailAllows: bool)

  predicate MailFits(d: ReplyInput) {
    d.analysis.None? || d.mailAllows
  }

  /** What send_reply keeps of the row across the transport call: the row as read, before its update. */
  datatype Ticket = Ticket(reply: Id, revision: nat, content: Content)

  datatype Resolution = ResolvedAccepted | ResolvedFailed

  ghost function CreateStep(rows: Rows, id: Id, d: ReplyInput): (Rows, Outcome<Reply, Error>) {
    if !d.scopeAllows then (rows, Raised(ScopeRejected))
    else if !MailFits(d) || id in rows then (rows, Raised(MailRejected))
    else
      var row := Reply(d.analysis, d.content, Draft, 1, None, false, "", None);
      (rows[id := row], Returned(row))
  }

  ghost predicate Editable(rows: Rows, id: Id, d: ReplyInput) {
    && id in rows && d.revision == Some(rows[id].revision)
    && (rows[id].status == Draft || rows[id].status == Failed)
    && d.scopeAllows && (rows[id].analysis.Some? ==> d.analysis == rows[id].analysis) && MailFits(d)
  }

  function Edited(row: Reply, d: ReplyInput): Reply {
    row.(content := d.content, analysis := d.analysis, status := Draft, proof := "", resolvedBy := None,
         transportError := false, revision := row.revision + 1)
  }

  ghost function UpdateStep(rows: Rows, id: Id, d: ReplyInput): (Rows, Outcome<Reply, Error>) {
    if Editable(rows, id, d) then (rows[id := Edited(rows[id], d)], Returned(Edited(rows[id], d)))
    else (rows, Raised(
      if id !in rows then NotFound
      else if d.revision != Some(rows[id].revision) then Conflict
      else if rows[id].status != Draft && rows[id].status != Failed then Locked
      else if !d.scopeAllows then ScopeRejected
      else if rows[id].analysis.Some? && d.analysis != rows[id].analysis then AnalysisFixed
      else MailRejected))
  }

  ghost predicate Sendable(rows: Rows, id: Id, revision: nat, transport: bool, decided: bool) {
    && transport && id in rows && rows[id].revision == revision && rows[id].status == Draft
    && (rows[id].analysis.Some? ==> decided)
  }

  /** First transaction of send_reply. `decided`: the latest decision on the row's mail is `decided`. */
  ghost function RequestStep(rows: Rows, id: Id, revision: nat, user: Id, transport: bool, decided: bool)
    : (Rows, Outcome<Ticket, Error>)
  {
    if Sendable(rows, id, revision, transport, decided) then
      (rows[id := rows[id].(status := Sending, sentBy := Some(user), revision := revision + 1)],
       Returned(Ticket(id, revision, rows[id].content)))
    else (rows, Raised(
      if !transport then NoTransport
      else if id !in rows then NotFound
      else if rows[id].revision != revision then Conflict
      else if rows[id].status != Draft then Locked else Undecided))
  }

  /** The row is still in the very send this ticket started. */
  ghost predicate Current(rows: Rows, t: Ticket) {
    t.reply in rows && rows[t.reply].status == Sending && rows[t.reply].revision == t.revision + 1
  }

  /** Second transaction of send_reply: True when the result was recorded, False when it came too
      late and was only observed. */
  ghost function RecordStep(rows: Rows, t: Ticket, ok: bool): (Rows, bool) {
    if Current(rows, t) then
      (rows[t.reply := rows[t.reply].(status := if ok then Accepted else Uncertain, transportError := !ok)], true)
    else (rows, false)
  }

  ghost predicate Resolvable(rows: Rows, id: Id, revision: nat) {
    id in rows && rows[id].revision == revision && (rows[id].status == Sending || rows[id].status == Uncertain)
  }

  ghost function ReconcileStep(rows: Rows, id: Id, revision: nat, outcome: Resolution, proof: string, user: Id)
    : (Rows, Outcome<Reply, Error>)
  {
    if Resolvable(rows, id, revision) then
      var row := rows[id].(status := if outcome == ResolvedAccepted then Accepted else Failed, proof := proof,
                           resolvedBy := Some(user), transportError := false, revision := revision + 1);
      (rows[id := row], Returned(row))
    else (rows, Raised(if id !in rows then NotFound else if rows[id].revision != revision then Conflict else Locked))
  }

  class ReplyDesk {
    var rows: Rows

    constructor ()
      ensures rows == map[]
    {
      rows := map[];
    }

    method CreateReply(id: Id, d: ReplyInput) returns (r: Outcome<Reply, Error>)
      modifies this
      ensures (rows, r) == CreateStep(old(rows), id, d)
    {
      if !d.scopeAllows {
        return Raised(ScopeRejected);
      }
      if (d.analysis.Some? && !d.mailAllows) || id in rows {
        return Raised(MailRejected);
      }
      rows := rows[id := Reply(d.analysis, d.content, Draft, 1, None, false, "", None)];
      r := Returned(rows[id]);
    }

    method UpdateReply(id: Id, d: ReplyInput) returns (r: Outcome<Reply, Error>)
      modifies this
      ensures (rows, r) == UpdateStep(old(rows), id, d)
    {
      if id !in rows {
        return Raised(NotFound);
      }
      var row := rows[id];
      if d.revision != Some(row.revision) {
        return Raised(Conflict);
      }
      if row.status != Draft && row.status != Failed {
        return Raised(Locked);
      }
      if !d.scopeAllows {
        return Raised(ScopeRejected);
      }
      if row.analysis.Some? && d.analysis != row.analysis {
        return Raised(AnalysisFixed);
      }
      if d.analysis.Some? && !d.mailAllows {
        return Raised(MailRejected);
      }
      row := row.(content := d.content, analysis := d.analysis, status := Draft);
      row := row.(proof := "", resolvedBy := None, transportError := false);
      rows := rows[id := row.(revision := row.revision + 1)];
      r := Returned(rows[id]);
    }

    method RequestSend(id: Id, revision: nat, user: Id, transport: bool, decided: bool)
      returns (r: Outcome<Ticket, Error>)
      modifies this
      ensures (rows, r) == RequestStep(old(rows), id, revision, user, transport, decided)
    {
      if !transport {
        return Raised(NoTransport);
      }
      if id !in rows {
        return Raised(NotFound);
      }
      var row := rows[id];
      if row.revision != revision {
        return Raised(Conflict);
      }
      if row.status != Draft {
        return Raised(Locked);
      }
      if row.analysis.Some? && !decided {
        return Raised(Undecided);
      }
      rows := rows[id := row.(status := Sending, sentBy := Some(user), revision := row.revision + 1)];
      r := Returned(Ticket(id, row.revision, row.content));
    }

    method RecordResult(t: Ticket, ok: bool) returns (recorded: bool)
      modifies this
      ensures (rows, recorded) == RecordStep(old(rows), t, ok)
    {
      var state := if ok then Accepted else Uncertain;
      recorded := t.reply in rows && rows[t.reply].status == Sending && rows[t.reply].revision == t.revision + 1;
      if recorded {
        rows := rows[t.reply := rows[t.reply].(status := state, transportError := state == Uncertain)];
      }
    }

    method Reconcile(id: Id, revision: nat, outcome: Resolution, proof: string, user: Id)
      returns (r: Outcome<Reply, Error>)
      modifies this
      ensures (rows, r) == ReconcileStep(old(rows), id, revision, outcome, proof, user)
    {
      if id !in rows {
        return Raised(NotFound);
      }
      var row := rows[id];
      if row.revision != revision {
        return Raised(Conflict);
      }
      if row.status != Sending && row.status != Uncertain {
        return Raised(Locked);
      }
      row := row.(status := match outcome case ResolvedAccepted => Accepted case ResolvedFailed => Failed);
      rows := rows[id := row.(proof := proof, resolvedBy := Some(user), transportError := false, revision := row.revision + 1)];
      r := Returned(rows[id]);
    }
  }
}
