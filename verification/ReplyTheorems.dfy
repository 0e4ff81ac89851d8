/** What holds over whole runs of the reply protocol. */
module ReplyTheorems {
  import opened Common
  import opened Replies
  import opened ReplyRuns

  function TicketOf(w: World, p: Id): Ticket
    requires p in w.senders
  {
    w.senders[p].ticket
  }

  /** Event i makes this sender's send request succeed. */
  ghost predicate Requests(ws: seq<World>, es: seq<Event>, i: int, p: Id)
    requires |ws| == |es| + 1
  {
    0 <= i < |es| && es[i].Request? && es[i].sender == p && p in ws[i + 1].senders
  }

  /** Event i reconciles this reply as failed. */
  ghost predicate Fails(ws: seq<World>, es: seq<Event>, i: int, id: Id)
    requires |ws| == |es| + 1
  {
    0 <= i < |es| && es[i].Reconcile? && es[i].id == id && es[i].outcome == ResolvedFailed
    && Resolvable(ws[i].rows, id, es[i].revision)
  }

  /** Event i edits this reply. */
  ghost predicate Edits(ws: seq<World>, es: seq<Event>, i: int, id: Id)
    requires |ws| == |es| + 1
  {
    0 <= i < |es| && es[i].Update? && es[i].id == id && Editable(ws[i].rows, id, es[i].input)
  }

  /** From event lo on and before event hi, the reply was reconciled as failed and then edited. */
  ghost predicate Separated(ws: seq<World>, es: seq<Event>, lo: int, hi: int, id: Id)
    requires |ws| == |es| + 1
  {
    exists k, l :: lo <= k < l < hi && Fails(ws, es, k, id) && Edits(ws, es, l, id)
  }

  ghost predicate Unresolved(w: World, id: Id) {
    id in w.rows && (w.rows[id].status == Sending || w.rows[id].status == Uncertain)
  }

  /* ---- What the routes mean to each other ---- */

  /** A new draft can be sent at once, given a transport and a decision on its mail, and what the transport then gets
      is what was drafted. Nothing else changes. */
  lemma DraftIsWhatIsSent(rows: Rows, id: Id, d: ReplyInput, user: Id, transport: bool, decided: bool)
    requires CreateStep(rows, id, d).1.Returned?
    ensures var u := CreateStep(rows, id, d).0;
      var (v, r) := RequestStep(u, id, 1, user, transport, decided);
      && (r.Returned? <==> transport && (d.analysis.Some? ==> decided))
      && (r.Returned? ==> r.value == Ticket(id, 1, d.content))
      && id !in rows && u - {id} == rows && v - {id} == rows
  {
    var u := CreateStep(rows, id, d).0;
    var v := RequestStep(u, id, 1, user, transport, decided).0;
    assert u - {id} == rows && v - {id} == rows;
  }

  /** The same for an edit: the text a later send hands out is that of the last edit. */
  lemma EditIsWhatIsSent(rows: Rows, id: Id, d: ReplyInput, user: Id, transport: bool, decided: bool)
    requires UpdateStep(rows, id, d).1.Returned?
    ensures var u := UpdateStep(rows, id, d).0;
      var (v, r) := RequestStep(u, id, rows[id].revision + 1, user, transport, decided);
      && (r.Returned? <==> transport && (d.analysis.Some? ==> decided))
      && (r.Returned? ==> r.value == Ticket(id, rows[id].revision + 1, d.content))
      && RequestStep(u, id, rows[id].revision, user, transport, decided).0 == u
  {
  }

  /** A result is recorded once: the row leaves `sending` with it, text and revision kept, and the same sender, like
      any sender of another revision, is only observed afterwards. */
  lemma ResultRecordedOnce(rows: Rows, t: Ticket, ok: bool, late: Ticket, again: bool)
    requires late.reply == t.reply
    ensures var (u, recorded) := RecordStep(rows, t, ok);
      recorded ==>
        && RecordStep(u, late, again) == (u, false)
        && u[t.reply].status == (if ok then Accepted else Uncertain)
        && u[t.reply].content == rows[t.reply].content && u[t.reply].revision == rows[t.reply].revision
        && u - {t.reply} == rows - {t.reply}
  {
  }

  /* ---- At most one transmission per revision ---- */

  lemma {:induction false} SendersPersist(ws: seq<World>, es: seq<Event>, i: nat, k: nat, p: Id)
    requires IsRun(ws, es) && i <= k < |ws| && p in ws[i].senders
    ensures p in ws[k].senders && TicketOf(ws[k], p) == TicketOf(ws[i], p)
    ensures ws[i].senders[p].phase != Requested ==> ws[k].senders[p].phase != Requested
    ensures ws[i].senders[p].phase.Reported? ==> ws[k].senders[p].phase == ws[i].senders[p].phase
  {
    if i < k {
      SendersPersist(ws, es, i, k - 1, p);
      assert Enabled(ws[k - 1], es[k - 1]) && ws[k] == Step(ws[k - 1], es[k - 1]);
    }
  }

  /** Two transport calls of a run are never for the same revision of the same reply. */
  lemma EachRevisionTransmittedOnce(ws: seq<World>, es: seq<Event>, i: nat, k: nat)
    requires IsRun(ws, es) && i < k < |es| && es[i].Transmit? && es[k].Transmit?
    ensures es[i].sender in ws[i].senders && es[k].sender in ws[k].senders
    ensures !SameTicket(TicketOf(ws[i], es[i].sender), TicketOf(ws[k], es[k].sender))
  {
    assert Enabled(ws[i], es[i]) && ws[i + 1] == Step(ws[i], es[i]);
    assert Enabled(ws[k], es[k]);
    SendersPersist(ws, es, i + 1, k, es[i].sender);
    InvariantHolds(ws, es, k);
  }

  /* ---- Revisions only grow, and equal revisions in one send mean an unchanged row ---- */

  lemma StepRow(w: World, e: Event, id: Id)
    requires Enabled(w, e) && id in w.rows
    ensures var t := Step(w, e);
      && id in t.rows && w.rows[id].revision <= t.rows[id].revision <= w.rows[id].revision + 1
      && (t.rows[id].revision == w.rows[id].revision ==>
            t.rows[id] == w.rows[id] || (w.rows[id].status == Sending && t.rows[id].status != Sending))
      && (t.rows[id].status == Sending ==> w.rows[id].status == Sending || w.rows[id].status == Draft)
      && (w.rows[id].status == Accepted ==> t.rows[id] == w.rows[id])
      && (t.rows[id].revision == w.rows[id].revision && w.rows[id].status != Sending ==> t.rows[id] == w.rows[id])
  {
  }

  lemma {:induction false} RevisionsGrow(ws: seq<World>, es: seq<Event>, i: nat, k: nat, id: Id)
    requires IsRun(ws, es) && i <= k < |ws| && id in ws[i].rows
    ensures id in ws[k].rows && ws[i].rows[id].revision <= ws[k].rows[id].revision
    ensures ws[k].rows[id].revision == ws[i].rows[id].revision && ws[k].rows[id].status == Sending
      ==> ws[k].rows[id] == ws[i].rows[id]
  {
    if i < k {
      RevisionsGrow(ws, es, i, k - 1, id);
      StepRow(ws[k - 1], es[k - 1], id);
    }
  }

  lemma {:induction false} RequestOf(ws: seq<World>, es: seq<Event>, i: nat, p: Id) returns (b: nat)
    requires IsRun(ws, es) && i < |ws| && p in ws[i].senders
    ensures b < i && Requests(ws, es, b, p) && TicketOf(ws[b + 1], p) == TicketOf(ws[i], p)
    ensures Sendable(ws[b].rows, TicketOf(ws[i], p).reply, TicketOf(ws[i], p).revision, es[b].transport, es[b].decided)
    ensures TicketOf(ws[i], p).content == ws[b].rows[TicketOf(ws[i], p).reply].content
    ensures Current(ws[b + 1].rows, TicketOf(ws[i], p))
  {
    assert Enabled(ws[i - 1], es[i - 1]) && ws[i] == Step(ws[i - 1], es[i - 1]);
    if p in ws[i - 1].senders {
      b := RequestOf(ws, es, i - 1, p);
    } else {
      b := i - 1;
    }
  }

  /** A recorded transport result belongs to the send request that put the row into `sending`: from
      that request to the recording, no state of the row lies in between. Late results and results
      of other sends of the same reply are never recorded. */
  lemma RecordedResultBelongsToItsSend(ws: seq<World>, es: seq<Event>, i: nat)
    requires IsRun(ws, es) && i < |es| && es[i].Record? && ws[i + 1].rows != ws[i].rows
    ensures es[i].sender in ws[i].senders
    ensures var t := TicketOf(ws[i], es[i].sender);
      exists b :: 0 <= b < i && Requests(ws, es, b, es[i].sender) && t.reply in ws[b + 1].rows
        && forall m | b < m <= i :: t.reply in ws[m].rows && ws[m].rows[t.reply] == ws[b + 1].rows[t.reply]
  {
    assert Enabled(ws[i], es[i]) && ws[i + 1] == Step(ws[i], es[i]);
    var p := es[i].sender;
    var t := TicketOf(ws[i], p);
    var b := RequestOf(ws, es, i, p);
    forall m | b < m <= i ensures t.reply in ws[m].rows && ws[m].rows[t.reply] == ws[b + 1].rows[t.reply] {
      SendingThroughout(ws, es, b + 1, m, i, t.reply);
    }
  }

  /** A row in `sending` at the same revision at both ends is the same row all the way. */
  lemma {:induction false} SendingThroughout(ws: seq<World>, es: seq<Event>, i: nat, m: nat, k: nat, id: Id)
    requires IsRun(ws, es) && i <= m <= k < |ws| && id in ws[i].rows && id in ws[k].rows
    requires ws[i].rows[id].status == Sending && ws[k].rows[id].status == Sending
    requires ws[i].rows[id].revision == ws[k].rows[id].revision
    ensures id in ws[m].rows && ws[m].rows[id] == ws[i].rows[id]
  {
    if i < m {
      SendingThroughout(ws, es, i, m - 1, k, id);
      StepRow(ws[m - 1], es[m - 1], id);
      RevisionsGrow(ws, es, m, k, id);
    }
  }

  /* ---- Sends of one reply are separated ---- */

  /** A row becomes a draft only by an edit of a failure (or of a draft), and a failure only by reconciliation. */
  lemma StepTurns(ws: seq<World>, es: seq<Event>, n: nat, id: Id)
    requires IsRun(ws, es) && n < |es| && id in ws[n].rows
    ensures id in ws[n + 1].rows
    ensures ws[n + 1].rows[id].status == Draft && ws[n].rows[id].status != Draft ==>
      ws[n].rows[id].status == Failed && Edits(ws, es, n, id)
    ensures ws[n + 1].rows[id].status == Failed && ws[n].rows[id].status != Failed ==> Fails(ws, es, n, id)
  {
    assert Enabled(ws[n], es[n]) && ws[n + 1] == Step(ws[n], es[n]);
  }

  /** From an unresolved send to a later draft there is always a reconciled failure, then an edit. */
  lemma {:induction false} FailureThenEdit(ws: seq<World>, es: seq<Event>, i: nat, k: nat, id: Id)
    requires IsRun(ws, es) && i <= k < |ws| && Unresolved(ws[i], id)
    ensures id in ws[k].rows
    ensures ws[k].rows[id].status == Draft ==> Separated(ws, es, i, k, id)
    ensures ws[k].rows[id].status == Failed ==> Separated(ws, es, i, k, id) || exists f :: i <= f < k && Fails(ws, es, f, id)
  {
    if i < k {
      FailureThenEdit(ws, es, i, k - 1, id);
      StepTurns(ws, es, k - 1, id);
      if Separated(ws, es, i, k - 1, id) {
        var f, l :| i <= f < l < k - 1 && Fails(ws, es, f, id) && Edits(ws, es, l, id);
        assert Separated(ws, es, i, k, id);
      } else if ws[k].rows[id].status == Draft {
        var f :| i <= f < k - 1 && Fails(ws, es, f, id);
        assert f < k - 1 < k && Edits(ws, es, k - 1, id);
      } else if ws[k].rows[id].status == Failed {
        if ws[k - 1].rows[id].status == Failed {
          var f :| i <= f < k - 1 && Fails(ws, es, f, id);
        } else {
          assert Fails(ws, es, k - 1, id);
        }
      }
    }
  }

  /** Two send requests of one reply are always separated by a reconciled failure and a later edit. */
  lemma RequestsAreSeparated(ws: seq<World>, es: seq<Event>, b: nat, c: nat, p: Id, q: Id)
    requires IsRun(ws, es) && b < c && Requests(ws, es, b, p) && Requests(ws, es, c, q)
    requires TicketOf(ws[b + 1], p).reply == TicketOf(ws[c + 1], q).reply
    ensures Separated(ws, es, b + 1, c, TicketOf(ws[c + 1], q).reply)
  {
    assert Enabled(ws[b], es[b]) && ws[b + 1] == Step(ws[b], es[b]);
    assert Enabled(ws[c], es[c]) && ws[c + 1] == Step(ws[c], es[c]);
    FailureThenEdit(ws, es, b + 1, c, TicketOf(ws[c + 1], q).reply);
  }

  /** A transport call made while its own send is still the current one. */
  ghost predicate OnTime(ws: seq<World>, es: seq<Event>, i: nat)
    requires i < |es| && |ws| == |es| + 1
  {
    es[i].Transmit? && es[i].sender in ws[i].senders && Current(ws[i].rows, TicketOf(ws[i], es[i].sender))
  }

  /** Two on-time transmissions of one reply are separated by a reconciled failure and an edit. */
  lemma OnTimeTransmissionsAreSeparated(ws: seq<World>, es: seq<Event>, i: nat, k: nat)
    requires IsRun(ws, es) && i < k < |es| && OnTime(ws, es, i) && OnTime(ws, es, k)
    requires TicketOf(ws[i], es[i].sender).reply == TicketOf(ws[k], es[k].sender).reply
    ensures Separated(ws, es, i, k, TicketOf(ws[k], es[k].sender).reply)
  {
    var p, q := es[i].sender, es[k].sender;
    var id := TicketOf(ws[k], q).reply;
    EachRevisionTransmittedOnce(ws, es, i, k);
    RevisionsGrow(ws, es, i, k, id);
    var b := RequestOf(ws, es, k, q);
    if b < i {
      RevisionsGrow(ws, es, b + 1, i, id);
    }
    FailureThenEdit(ws, es, i, b, id);
    var f, l :| i <= f < l < b && Fails(ws, es, f, id) && Edits(ws, es, l, id);
  }

  /** No accepted send request for the reply among events lo .. hi - 1. */
  ghost predicate NoRequest(ws: seq<World>, es: seq<Event>, lo: nat, hi: nat, id: Id)
    requires |ws| == |es| + 1
  {
    forall b, p | lo <= b < hi && Requests(ws, es, b, p) :: TicketOf(ws[b + 1], p).reply != id
  }

  /** Once resolved, a reply stays resolved until the next send request. */
  lemma {:induction false} ResolvedUntilRequested(ws: seq<World>, es: seq<Event>, i: nat, k: nat, id: Id)
    requires IsRun(ws, es) && i <= k < |ws| && id in ws[i].rows && !Unresolved(ws[i], id) && NoRequest(ws, es, i, k, id)
    ensures id in ws[k].rows && !Unresolved(ws[k], id)
  {
    if i < k {
      ResolvedUntilRequested(ws, es, i, k - 1, id);
      var e := es[k - 1];
      assert Enabled(ws[k - 1], e) && ws[k] == Step(ws[k - 1], e);
      if Unresolved(ws[k], id) {
        assert e.Request? && Requests(ws, es, k - 1, e.sender);
      }
    }
  }

  /** A reply that is unresolved with no send requested before has been unresolved all along. */
  lemma UnresolvedThroughout(ws: seq<World>, es: seq<Event>, i: nat, k: nat, id: Id)
    requires IsRun(ws, es) && i <= k < |ws| && id in ws[i].rows && Unresolved(ws[k], id) && NoRequest(ws, es, i, k, id)
    ensures forall n | i <= n <= k :: Unresolved(ws[n], id)
  {
    forall n | i <= n <= k ensures Unresolved(ws[n], id) {
      RevisionsGrow(ws, es, i, n, id);
      if !Unresolved(ws[n], id) {
        ResolvedUntilRequested(ws, es, n, k, id);
      }
    }
  }

  /** While a reply stays unresolved, it stays at the revision of its send. */
  lemma {:induction false} UnresolvedKeepsRevision(ws: seq<World>, es: seq<Event>, i: nat, k: nat, id: Id)
    requires IsRun(ws, es) && i <= k < |ws| && forall n | i <= n <= k :: Unresolved(ws[n], id)
    requires Unresolved(ws[i], id) && Unresolved(ws[k], id)
    ensures ws[k].rows[id].revision == ws[i].rows[id].revision
  {
    if i < k {
      assert Unresolved(ws[k - 1], id);
      UnresolvedKeepsRevision(ws, es, i, k - 1, id);
      UnresolvedStep(ws, es, k - 1, id);
    }
  }

  lemma UnresolvedStep(ws: seq<World>, es: seq<Event>, n: nat, id: Id)
    requires IsRun(ws, es) && n < |es| && Unresolved(ws[n], id) && Unresolved(ws[n + 1], id)
    ensures ws[n + 1].rows[id].revision == ws[n].rows[id].revision
  {
    assert Enabled(ws[n], es[n]) && ws[n + 1] == Step(ws[n], es[n]);
  }

  /** Exactly when anything that happens to a reply is separated from a later event: when the reply was unresolved at
      some moment in between and a draft at a later one. */
  lemma SeparatedIffRedrafted(ws: seq<World>, es: seq<Event>, i: nat, k: nat, id: Id)
    requires IsRun(ws, es) && i <= k <= |es|
    ensures Separated(ws, es, i, k, id) <==>
      exists m, n :: i <= m < n <= k && Unresolved(ws[m], id) && IsDraft(ws[n], id)
  {
    if Separated(ws, es, i, k, id) {
      var f, l :| i <= f < l < k && Fails(ws, es, f, id) && Edits(ws, es, l, id);
      assert ws[l + 1] == Step(ws[l], es[l]);
      assert Unresolved(ws[f], id) && IsDraft(ws[l + 1], id);
    }
    if m, n :| i <= m < n <= k && Unresolved(ws[m], id) && IsDraft(ws[n], id) {
      FailureThenEdit(ws, es, m, n, id);
      var f, l :| m <= f < l < n && Fails(ws, es, f, id) && Edits(ws, es, l, id);
      assert i <= f < l < k;
    }
  }

  ghost predicate IsDraft(w: World, id: Id) {
    id in w.rows && w.rows[id].status == Draft
  }

  ghost predicate DraftAgain(ws: seq<World>, i: nat, n: nat, id: Id)
    requires i <= n < |ws|
  {
    exists m :: i < m <= n && IsDraft(ws[m], id)
  }

  /** How far the row has come from the send of revision r, as long as it has not become a draft again. */
  ghost predicate NotFar(w: World, id: Id, r: nat) {
    && id in w.rows && w.rows[id].status != Draft && w.rows[id].revision <= r + 2
    && (Unresolved(w, id) ==> w.rows[id].revision == r + 1)
  }

  lemma NotFarStep(ws: seq<World>, es: seq<Event>, n: nat, id: Id, r: nat)
    requires IsRun(ws, es) && n < |es| && NotFar(ws[n], id, r)
    ensures NotFar(ws[n + 1], id, r) || IsDraft(ws[n + 1], id)
  {
    assert Enabled(ws[n], es[n]) && ws[n + 1] == Step(ws[n], es[n]);
  }

  lemma {:induction false} NotFarUnlessDraftAgain(ws: seq<World>, es: seq<Event>, i: nat, n: nat, id: Id, r: nat)
    requires IsRun(ws, es) && i <= n < |ws| && NotFar(ws[i], id, r)
    ensures NotFar(ws[n], id, r) || DraftAgain(ws, i, n, id)
  {
    if i < n {
      NotFarUnlessDraftAgain(ws, es, i, n - 1, id, r);
      if m :| i < m <= n - 1 && IsDraft(ws[m], id) {
        assert DraftAgain(ws, i, n, id);
      } else {
        NotFarStep(ws, es, n - 1, id, r);
      }
    }
  }

  /** The same, read off the row: what follows an on-time transmission is separated from it exactly if the row has
      moved three revisions on from the one that was sent: sent, resolved, edited. */
  lemma SeparatedIffThreeRevisions(ws: seq<World>, es: seq<Event>, i: nat, k: nat)
    requires IsRun(ws, es) && i < k <= |es| && OnTime(ws, es, i)
    ensures var t := TicketOf(ws[i], es[i].sender);
      t.reply in ws[k].rows && (Separated(ws, es, i, k, t.reply) <==> ws[k].rows[t.reply].revision >= t.revision + 3)
  {
    var t := TicketOf(ws[i], es[i].sender);
    var id := t.reply;
    RevisionsGrow(ws, es, i, k, id);
    NotFarUnlessDraftAgain(ws, es, i, k, id, t.revision);
    if m :| i < m <= k && IsDraft(ws[m], id) {
      assert Unresolved(ws[i], id);
    }
    SeparatedIffRedrafted(ws, es, i, k, id);
    if Separated(ws, es, i, k, id) {
      var f, l :| i <= f < l < k && Fails(ws, es, f, id) && Edits(ws, es, l, id);
      RevisionsGrow(ws, es, i, f, id);
      assert ws[f + 1] == Step(ws[f], es[f]) && ws[l + 1] == Step(ws[l], es[l]);
      RevisionsGrow(ws, es, f + 1, l, id);
      RevisionsGrow(ws, es, l + 1, k, id);
    }
  }

  /** A reply is not reconciled as failed between its send request and an on-time transport call of that send. */
  lemma SendIsNotFailed(ws: seq<World>, es: seq<Event>, b: nat, f: nat, k: nat, id: Id)
    requires IsRun(ws, es) && b <= f < k < |es| && OnTime(ws, es, k) && Requests(ws, es, b, es[k].sender)
    requires TicketOf(ws[k], es[k].sender).reply == id
    ensures !Fails(ws, es, f, id)
  {
    var q := es[k].sender;
    assert Enabled(ws[b], es[b]) && ws[b + 1] == Step(ws[b], es[b]);
    SendersPersist(ws, es, b + 1, k, q);
    if f > b {
      SendingThroughout(ws, es, b + 1, f, k, id);
      SendingThroughout(ws, es, b + 1, f + 1, k, id);
    }
  }

  /** Exactly when anything is separated from an on-time transmission: when the reply was unresolved at some moment
      from then on and before the send of that transmission was requested. */
  lemma TransmissionSeparatedIff(ws: seq<World>, es: seq<Event>, i: nat, b: nat, k: nat, id: Id)
    requires IsRun(ws, es) && i < k < |es| && OnTime(ws, es, k) && TicketOf(ws[k], es[k].sender).reply == id
    requires Requests(ws, es, b, es[k].sender) && b < k
    ensures Separated(ws, es, i, k, id) <==> exists m :: i <= m < b && Unresolved(ws[m], id)
  {
    if m :| i <= m < b && Unresolved(ws[m], id) {
      assert Enabled(ws[b], es[b]) && ws[b + 1] == Step(ws[b], es[b]);
      SendersPersist(ws, es, b + 1, k, es[k].sender);
      FailureThenEdit(ws, es, m, b, id);
      var f, l :| m <= f < l < b && Fails(ws, es, f, id) && Edits(ws, es, l, id);
      assert i <= f < l < k;
    }
    if Separated(ws, es, i, k, id) {
      var f, l :| i <= f < l < k && Fails(ws, es, f, id) && Edits(ws, es, l, id);
      if f >= b {
        SendIsNotFailed(ws, es, b, f, k, id);
      }
      assert Unresolved(ws[f], id);
    }
  }

  /** A sender that is about to transmit while its reply is still unresolved, with no later send requested, is on
      time. */
  lemma UnresolvedIsOnTime(ws: seq<World>, es: seq<Event>, a: nat, i: nat, id: Id)
    requires IsRun(ws, es) && a < i < |es| && es[i].Transmit? && Requests(ws, es, a, es[i].sender)
    requires TicketOf(ws[a + 1], es[i].sender).reply == id && NoRequest(ws, es, a + 1, i, id) && Unresolved(ws[i], id)
    ensures OnTime(ws, es, i)
  {
    var p := es[i].sender;
    assert Enabled(ws[a], es[a]) && ws[a + 1] == Step(ws[a], es[a]);
    assert Enabled(ws[i], es[i]);
    SendersPersist(ws, es, a + 1, i, p);
    UnresolvedThroughout(ws, es, a + 1, i, id);
    UnresolvedKeepsRevision(ws, es, a + 1, i, id);
    InvariantHolds(ws, es, i);
    assert Accounted(ws[i], id);
    var r :| Accounts(ws[i], id, r);
    assert SameTicket(TicketOf(ws[i], r), TicketOf(ws[i], p));
  }

  /** Two sends of a reply, the second the next one requested: their transmissions are separated by a reconciled
      failure and an edit exactly if the first was on time, that is, if its sender would still have found the row
      in its own send. */
  lemma NextTransmissionSeparatedIff(ws: seq<World>, es: seq<Event>, a: nat, i: nat, b: nat, k: nat, id: Id)
    requires IsRun(ws, es) && a < i < k < |es| && a < b < k && es[i].Transmit? && OnTime(ws, es, k)
    requires Requests(ws, es, a, es[i].sender) && TicketOf(ws[a + 1], es[i].sender).reply == id
    requires Requests(ws, es, b, es[k].sender) && TicketOf(ws[k], es[k].sender).reply == id
    requires NoRequest(ws, es, a + 1, b, id)
    ensures Separated(ws, es, i, k, id) <==> OnTime(ws, es, i)
  {
    var p := es[i].sender;
    SendersPersist(ws, es, a + 1, i, p);
    TransmissionSeparatedIff(ws, es, i, b, k, id);
    if m :| i <= m < b && Unresolved(ws[m], id) {
      assert Enabled(ws[a], es[a]) && ws[a + 1] == Step(ws[a], es[a]);
      RevisionsGrow(ws, es, a + 1, i, id);
      if !Unresolved(ws[i], id) {
        ResolvedUntilRequested(ws, es, i, m, id);
      }
      UnresolvedIsOnTime(ws, es, a, i, id);
    }
    if OnTime(ws, es, i) {
      OnTimeTransmissionsAreSeparated(ws, es, i, k);
    }
  }

  lemma ExtendRun(ws: seq<World>, es: seq<Event>, e: Event, w: World)
    requires IsRun(ws, es) && Enabled(ws[|es|], e) && w == Step(ws[|es|], e)
    ensures IsRun(ws + [w], es + [e])
  {
    var vs, ds := ws + [w], es + [e];
    forall i | 0 <= i < |ds| ensures Enabled(vs[i], ds[i]) && vs[i + 1] == Step(vs[i], ds[i]) {
      if i < |es| { assert Enabled(ws[i], es[i]) && ws[i + 1] == Step(ws[i], es[i]); }
    }
  }

  function First(text: Content): Reply {
    Reply(None, text, Draft, 1, None, false, "", None)
  }

  function Reconciled(text: Content): Reply {
    First(text).(status := Failed, sentBy := Some(9), revision := 3, proof := "checked", resolvedBy := Some(9))
  }

  /** A send that is reconciled as failed before its sender has reached the transport. */
  lemma FailedBeforeTransport(text: Content) returns (ws: seq<World>, es: seq<Event>)
    ensures IsRun(ws, es) && |es| == 3
    ensures ws[3] == World(map[7 := Reconciled(text)], map[0 := Sender(Ticket(7, 1, text), Requested)])
  {
    var sent := First(text).(status := Sending, sentBy := Some(9), revision := 2);
    var a := Sender(Ticket(7, 1, text), Requested);
    var create := Create(7, ReplyInput(text, None, None, true, true));
    ws, es := [World(map[], map[])], [];
    ExtendRun(ws, es, create, World(map[7 := First(text)], map[]));
    ws, es := ws + [World(map[7 := First(text)], map[])], es + [create];
    ExtendRun(ws, es, Request(0, 7, 1, 9, true, true), World(map[7 := sent], map[0 := a]));
    ws, es := ws + [World(map[7 := sent], map[0 := a])], es + [Request(0, 7, 1, 9, true, true)];
    ExtendRun(ws, es, Reconcile(7, 2, ResolvedFailed, "checked", 9), World(map[7 := Reconciled(text)], map[0 := a]));
    ws, es := ws + [World(map[7 := Reconciled(text)], map[0 := a])], es + [Reconcile(7, 2, ResolvedFailed, "checked", 9)];
  }

  /** The same reply edited and sent again, the first sender still on its way to the transport. */
  lemma ResentBeforeTransport(text: Content) returns (ws: seq<World>, es: seq<Event>)
    ensures IsRun(ws, es) && |es| == 5
    ensures 7 in ws[5].rows && ws[5].rows[7].status == Sending && ws[5].rows[7].revision == 5
    ensures ws[5].senders == map[0 := Sender(Ticket(7, 1, text), Requested), 1 := Sender(Ticket(7, 4, text), Requested)]
  {
    var a, b := Sender(Ticket(7, 1, text), Requested), Sender(Ticket(7, 4, text), Requested);
    var edited := First(text).(sentBy := Some(9), revision := 4);
    var resent := edited.(status := Sending, revision := 5);
    var edit := Update(7, ReplyInput(text, None, Some(3), true, true));
    ws, es := FailedBeforeTransport(text);
    ExtendRun(ws, es, edit, World(map[7 := edited], map[0 := a]));
    ws, es := ws + [World(map[7 := edited], map[0 := a])], es + [edit];
    ExtendRun(ws, es, Request(1, 7, 4, 9, true, true), World(map[7 := resent], map[0 := a, 1 := b]));
    ws, es := ws + [World(map[7 := resent], map[0 := a, 1 := b])], es + [Request(1, 7, 4, 9, true, true)];
  }

  /** Without the on-time condition separation fails, although the reply is unresolved: both transport calls may
      follow that re-send, one right after the other. */
  lemma LateTransmissionIsNotSeparated(text: Content) returns (ws: seq<World>, es: seq<Event>)
    ensures IsRun(ws, es) && |es| == 7 && es[5] == Transmit(0, true) && es[6] == Transmit(1, true)
    ensures 0 in ws[5].senders && 1 in ws[6].senders
    ensures TicketOf(ws[5], 0).reply == TicketOf(ws[6], 1).reply == 7
    ensures Unresolved(ws[5], 7) && !OnTime(ws, es, 5) && OnTime(ws, es, 6)
    ensures !Separated(ws, es, 5, 6, 7)
  {
    ws, es := TwoTransmissions(text, 0, 1);
  }

  /** Nor is it enough that the first one is on time: the slow sender of the earlier send may come second. */
  lemma SlowSenderComesSecond(text: Content) returns (ws: seq<World>, es: seq<Event>)
    ensures IsRun(ws, es) && |es| == 7 && es[5] == Transmit(1, true) && es[6] == Transmit(0, true)
    ensures 1 in ws[5].senders && 0 in ws[6].senders
    ensures TicketOf(ws[5], 1).reply == TicketOf(ws[6], 0).reply == 7
    ensures OnTime(ws, es, 5) && !OnTime(ws, es, 6)
    ensures !Separated(ws, es, 5, 6, 7)
  {
    ws, es := TwoTransmissions(text, 1, 0);
  }

  lemma TwoTransmissions(text: Content, p: Id, q: Id) returns (ws: seq<World>, es: seq<Event>)
    requires {p, q} == {0, 1} && p != q
    ensures IsRun(ws, es) && |es| == 7 && es[5] == Transmit(p, true) && es[6] == Transmit(q, true)
    ensures 7 in ws[5].rows && ws[5].rows[7].status == Sending && ws[5].rows[7].revision == 5 && ws[6].rows == ws[5].rows
    ensures forall r | r in {0, 1} ::
      r in ws[5].senders && r in ws[6].senders && ws[6].senders[r].ticket == ws[5].senders[r].ticket
    ensures ws[5].senders[0].ticket.revision == 1 && ws[5].senders[1].ticket.revision == 4
    ensures ws[5].senders[0].ticket.reply == ws[5].senders[1].ticket.reply == 7
  {
    assert p in {p, q} && q in {p, q};
    ws, es := ResentBeforeTransport(text);
    var w := Step(ws[5], Transmit(p, true));
    ExtendRun(ws, es, Transmit(p, true), w);
    ws, es := ws + [w], es + [Transmit(p, true)];
    w := Step(w, Transmit(q, true));
    ExtendRun(ws, es, Transmit(q, true), w);
    ws, es := ws + [w], es + [Transmit(q, true)];
  }

  /* ---- Accepted is terminal ---- */

  lemma {:induction false} AcceptedIsTerminal(ws: seq<World>, es: seq<Event>, i: nat, k: nat, id: Id)
    requires IsRun(ws, es) && i <= k < |ws| && id in ws[i].rows && ws[i].rows[id].status == Accepted
    ensures id in ws[k].rows && ws[k].rows[id] == ws[i].rows[id]
  {
    if i < k {
      AcceptedIsTerminal(ws, es, i, k - 1, id);
      StepRow(ws[k - 1], es[k - 1], id);
    }
  }

  /** Sender p requested the last send of the reply, with the text the row has now; and if the row
      was accepted without an analyst's resolution, the transport accepted that send. */
  ghost predicate SentLast(w: World, id: Id, p: Id) {
    && LastSender(w, p) && TicketOf(w, p).reply == id && id in w.rows
    && TicketOf(w, p).content == w.rows[id].content
    && (w.rows[id].status == Accepted && w.rows[id].resolvedBy.None? ==> w.senders[p].phase == Reported(true))
  }

  /** Whatever became of a reply, while it is not a draft its text is the text of its last send
      request; and when the transport (not an analyst) is the one that accepted it, that very send
      was handed to the transport and accepted there. */
  lemma AcceptedContentWasSent(ws: seq<World>, es: seq<Event>, i: nat, id: Id)
    requires IsRun(ws, es) && i < |ws| && id in ws[i].rows && ws[i].rows[id].status != Draft
    ensures exists p :: SentLast(ws[i], id, p)
  {
    InvariantHolds(ws, es, i);
    assert Accounted(ws[i], id);
    var p :| Accounts(ws[i], id, p);
    assert SentLast(ws[i], id, p);
  }
}
