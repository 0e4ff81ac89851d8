/** What the reply routes answer, read off the columns of the row, and that no two of them use up the same revision. */
module ReplyRevisions {
  import opened Common
  import opened Replies
  import opened ReplyRuns
  import opened ReplyTheorems

  /* ---- One call ---- */

  predicate IsOneOf(status: Status, a: Status, b: Status) {
    status == a || status == b
  }

  /** An edit is accepted exactly if it was typed against the row's own revision, the row is a draft or a failure, and
      mail and scope allow it. It then reads back as typed, cleared of every trace of an earlier send but the sender;
      otherwise nothing changes, and the first thing that stands in its way is reported. */
  lemma EditAnswers(rows: Rows, id: Id, d: ReplyInput)
    requires id in rows
    ensures var (u, r) := UpdateStep(rows, id, d);
      var row := rows[id];
      var sameMail := row.analysis.None? || d.analysis == row.analysis;
      && (r.Returned? <==>
            && d.revision == Some(row.revision) && IsOneOf(row.status, Draft, Failed)
            && d.scopeAllows && sameMail && (d.analysis.Some? ==> d.mailAllows))
      && (r.Returned? ==>
            && u == rows[id := Reply(d.analysis, d.content, Draft, row.revision + 1, row.sentBy, false, "", None)]
            && r.value == u[id])
      && (!r.Returned? ==> u == rows)
      && (r == Raised(Conflict) <==> d.revision != Some(row.revision))
      && (d.revision == Some(row.revision) ==> (r == Raised(Locked) <==> !IsOneOf(row.status, Draft, Failed)))
      && (d.revision == Some(row.revision) && IsOneOf(row.status, Draft, Failed) ==>
            && (r == Raised(ScopeRejected) <==> !d.scopeAllows)
            && (d.scopeAllows ==> (r == Raised(AnalysisFixed) <==> !sameMail))
            && (d.scopeAllows && sameMail ==> (r == Raised(MailRejected) <==> d.analysis.Some? && !d.mailAllows)))
  {
  }

  /** A send is accepted exactly for a draft at the given revision, with a transport, and with a decision where the
      reply names a mail. */
  lemma SendAnswers(rows: Rows, id: Id, revision: nat, user: Id, transport: bool, decided: bool)
    requires id in rows
    ensures var (u, r) := RequestStep(rows, id, revision, user, transport, decided);
      var row := rows[id];
      && (r.Returned? <==> transport && revision == row.revision && row.status == Draft && (row.analysis.Some? ==> decided))
      && (r.Returned? ==>
            && u == rows[id := row.(status := Sending, sentBy := Some(user), revision := row.revision + 1)]
            && r.value == Ticket(id, row.revision, row.content))
      && (!r.Returned? ==> u == rows)
      && (r == Raised(NoTransport) <==> !transport)
      && (transport ==> (r == Raised(Conflict) <==> revision != row.revision))
      && (transport && revision == row.revision ==> (r == Raised(Locked) <==> row.status != Draft))
      && (transport && revision == row.revision && row.status == Draft ==> (r == Raised(Undecided) <==> row.analysis.Some? && !decided))
  {
  }

  /** A result is recorded exactly while the row is still sending at the revision of its own send. */
  lemma RecordAnswers(rows: Rows, t: Ticket, ok: bool)
    requires t.reply in rows
    ensures var (u, recorded) := RecordStep(rows, t, ok);
      var row := rows[t.reply];
      && (recorded <==> row.status == Sending && row.revision == t.revision + 1)
      && u == (if recorded then rows[t.reply := row.(status := if ok then Accepted else Uncertain, transportError := !ok)] else rows)
  {
  }

  /** A reconciliation is accepted exactly for a reply sending or uncertain at the given revision, and leaves the
      verified outcome with its proof. */
  lemma ReconcileAnswers(rows: Rows, id: Id, revision: nat, outcome: Resolution, proof: string, user: Id)
    requires id in rows
    ensures var (u, r) := ReconcileStep(rows, id, revision, outcome, proof, user);
      var row := rows[id];
      && (r.Returned? <==> revision == row.revision && IsOneOf(row.status, Sending, Uncertain))
      && (r.Returned? ==>
            && u == rows[id := Reply(row.analysis, row.content, if outcome == ResolvedAccepted then Accepted else Failed,
                                     row.revision + 1, row.sentBy, false, proof, Some(user))]
            && r.value == u[id])
      && (!r.Returned? ==> u == rows)
      && (r == Raised(Conflict) <==> revision != row.revision)
      && (revision == row.revision ==> (r == Raised(Locked) <==> !IsOneOf(row.status, Sending, Uncertain)))
  {
  }

  /** A draft needs a scope and, where it names a mail, that mail. */
  lemma CreateAnswers(rows: Rows, id: Id, d: ReplyInput)
    requires id !in rows
    ensures var (u, r) := CreateStep(rows, id, d);
      && (r.Returned? <==> d.scopeAllows && (d.analysis.Some? ==> d.mailAllows))
      && (!r.Returned? ==> u == rows && r == Raised(if d.scopeAllows then MailRejected else ScopeRejected))
      && (r.Returned? ==> u == rows[id := Reply(d.analysis, d.content, Draft, 1, None, false, "", None)] && r.value == u[id])
  {
  }

  /** None of the routes finds a reply that is not there. */
  lemma MissingAnswers(rows: Rows, id: Id, d: ReplyInput, revision: nat, user: Id, decided: bool, t: Ticket, ok: bool,
                       outcome: Resolution, proof: string)
    requires id !in rows && t.reply == id
    ensures UpdateStep(rows, id, d) == (rows, Raised(NotFound))
    ensures RequestStep(rows, id, revision, user, true, decided) == (rows, Raised(NotFound))
    ensures RequestStep(rows, id, revision, user, false, decided) == (rows, Raised(NoTransport))
    ensures RecordStep(rows, t, ok) == (rows, false)
    ensures ReconcileStep(rows, id, revision, outcome, proof, user) == (rows, Raised(NotFound))
  {
  }

  /* ---- Runs ---- */

  /** An edit, send or reconciliation of this reply by someone who saw this revision. */
  predicate Against(e: Event, id: Id, revision: nat) {
    match e
    case Update(r, d) => r == id && d.revision == Some(revision)
    case Request(_, r, seen, _, _, _) => r == id && seen == revision
    case Reconcile(r, seen, _, _, _) => r == id && seen == revision
    case _ => false
  }

  ghost predicate Succeeds(w: World, e: Event) {
    match e
    case Update(id, d) => UpdateStep(w.rows, id, d).1.Returned?
    case Request(_, id, revision, user, transport, decided) => RequestStep(w.rows, id, revision, user, transport, decided).1.Returned?
    case Reconcile(id, revision, outcome, proof, user) => ReconcileStep(w.rows, id, revision, outcome, proof, user).1.Returned?
    case _ => false
  }

  lemma SuccessUsesRevision(w: World, e: Event, id: Id, revision: nat)
    requires Enabled(w, e) && Against(e, id, revision)
    ensures Succeeds(w, e) ==>
      && id in w.rows && w.rows[id].revision == revision
      && id in Step(w, e).rows && Step(w, e).rows[id].revision == revision + 1
    ensures !Succeeds(w, e) ==> Step(w, e).rows == w.rows
  {
  }

  /** Of all edits, sends and reconciliations made against one revision of a reply at most one is accepted: nobody
      overwrites, sends or resolves what they have not seen. */
  lemma EachRevisionUsedOnce(ws: seq<World>, es: seq<Event>, i: nat, k: nat, id: Id, revision: nat)
    requires IsRun(ws, es) && i < k < |es| && Against(es[i], id, revision) && Against(es[k], id, revision)
    requires Succeeds(ws[i], es[i])
    ensures !Succeeds(ws[k], es[k]) && ws[k + 1].rows == ws[k].rows
  {
    assert Enabled(ws[i], es[i]) && ws[i + 1] == Step(ws[i], es[i]);
    assert Enabled(ws[k], es[k]) && ws[k + 1] == Step(ws[k], es[k]);
    SuccessUsesRevision(ws[i], es[i], id, revision);
    RevisionsGrow(ws, es, i + 1, k, id);
    SuccessUsesRevision(ws[k], es[k], id, revision);
  }

  lemma StepKeepsMail(w: World, e: Event, id: Id)
    requires Enabled(w, e) && id in w.rows && w.rows[id].analysis.Some?
    ensures var t := Step(w, e); id in t.rows && t.rows[id].analysis == w.rows[id].analysis
  {
  }

  /** A reply that names a mail answers that mail for ever. */
  lemma {:induction false} MailIsFixed(ws: seq<World>, es: seq<Event>, i: nat, k: nat, id: Id)
    requires IsRun(ws, es) && i <= k < |ws| && id in ws[i].rows && ws[i].rows[id].analysis.Some?
    ensures id in ws[k].rows && ws[k].rows[id].analysis == ws[i].rows[id].analysis
  {
    if i < k {
      MailIsFixed(ws, es, i, k - 1, id);
      StepKeepsMail(ws[k - 1], es[k - 1], id);
    }
  }

  /** Event b asks for the send that this ticket stands for, and nothing forbade it. */
  ghost predicate RightlyAsked(ws: seq<World>, es: seq<Event>, b: int, t: Ticket)
    requires |ws| == |es| + 1
  {
    && 0 <= b < |es| && es[b].Request? && es[b].id == t.reply && es[b].revision == t.revision && es[b].transport
    && t.reply in ws[b].rows
    && var row := ws[b].rows[t.reply];
    row.status == Draft && row.revision == t.revision && row.content == t.content && (row.analysis.Some? ==> es[b].decided)
  }

  /** Whatever reaches the transport was asked for before, as the draft it then was, by someone who saw that draft, and
      after a decision on its mail. */
  lemma NothingIsSentUnasked(ws: seq<World>, es: seq<Event>, i: nat)
    requires IsRun(ws, es) && i < |es| && es[i].Transmit?
    ensures es[i].sender in ws[i].senders
    ensures exists b :: b < i && RightlyAsked(ws, es, b, TicketOf(ws[i], es[i].sender))
  {
    assert Enabled(ws[i], es[i]);
    var p := es[i].sender;
    var b := RequestOf(ws, es, i, p);
    AskedRow(ws, es, b, p);
    assert RightlyAsked(ws, es, b, TicketOf(ws[i], p));
  }

  lemma AskedRow(ws: seq<World>, es: seq<Event>, b: nat, p: Id)
    requires IsRun(ws, es) && Requests(ws, es, b, p)
    ensures RightlyAsked(ws, es, b, TicketOf(ws[b + 1], p))
  {
    assert Enabled(ws[b], es[b]) && ws[b + 1] == Step(ws[b], es[b]);
    AskedStep(ws[b], es[b]);
  }

  lemma AskedStep(w: World, e: Event)
    requires Enabled(w, e) && e.Request? && e.sender in Step(w, e).senders
    ensures Succeeds(w, e) && var t := TicketOf(Step(w, e), e.sender);
      && t == Ticket(e.id, e.revision, w.rows[e.id].content) && e.transport && w.rows[e.id].status == Draft
      && w.rows[e.id].revision == e.revision && (w.rows[e.id].analysis.Some? ==> e.decided)
  {
    if e.id in w.rows {
      SendAnswers(w.rows, e.id, e.revision, e.user, e.transport, e.decided);
    }
  }
}
