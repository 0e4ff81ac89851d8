/** Every interleaving of editors, concurrent senders, late transport results, reconciliation and
    crashes. A sender that dies never takes its next step. */
module ReplyRuns {
  import opened Common
  import opened Replies

  /** How far a call of send_reply has come since its first transaction. */
  datatype Phase = Requested | Transmitted(ok: bool) | Reported(ok: bool)

  datatype Sender = Sender(ticket: Ticket, phase: Phase)

  datatype World = World(rows: Rows, senders: map<Id, Sender>)

  datatype Event =
    | Create(id: Id, input: ReplyInput)
    | Update(id: Id, input: ReplyInput)
    | Request(sender: Id, id: Id, revision: nat, user: Id, transport: bool, decided: bool)
    | Transmit(sender: Id, ok: bool)
    | Record(sender: Id)
    | Reconcile(id: Id, revision: nat, outcome: Resolution, proof: string, user: Id)

  /** Each call of send_reply is its own sender; it calls the transport once, then records once. */
  ghost predicate Enabled(w: World, e: Event) {
    match e
    case Request(p, _, _, _, _, _) => p !in w.senders
    case Transmit(p, _) => p in w.senders && w.senders[p].phase == Requested
    case Record(p) => p in w.senders && w.senders[p].phase.Transmitted?
    case _ => true
  }

  ghost function Step(w: World, e: Event): World
    requires Enabled(w, e)
  {
    match e
    case Create(id, d) => World(CreateStep(w.rows, id, d).0, w.senders)
    case Update(id, d) => World(UpdateStep(w.rows, id, d).0, w.senders)
    case Request(p, id, revision, user, transport, decided) =>
      var (rows, r) := RequestStep(w.rows, id, revision, user, transport, decided);
      World(rows, if r.Returned? then w.senders[p := Sender(r.value, Requested)] else w.senders)
    case Transmit(p, ok) => World(w.rows, w.senders[p := w.senders[p].(phase := Transmitted(ok))])
    case Record(p) =>
      var s := w.senders[p];
      World(RecordStep(w.rows, s.ticket, s.phase.ok).0, w.senders[p := s.(phase := Reported(s.phase.ok))])
    case Reconcile(id, revision, outcome, proof, user) =>
      World(ReconcileStep(w.rows, id, revision, outcome, proof, user).0, w.senders)
  }

  ghost predicate IsRun(ws: seq<World>, es: seq<Event>) {
    && |ws| == |es| + 1
    && ws[0] == World(map[], map[])
    && forall i | 0 <= i < |es| :: Enabled(ws[i], es[i]) && ws[i + 1] == Step(ws[i], es[i])
  }

  /* ---- The invariant ---- */

  /** No later send of the same reply has been requested. */
  ghost predicate LastSender(w: World, p: Id) {
    p in w.senders && forall q | q in w.senders && w.senders[q].ticket.reply == w.senders[p].ticket.reply ::
      w.senders[q].ticket.revision <= w.senders[p].ticket.revision
  }

  /** Sender p requested the last send of the reply, with the content the row still has. */
  ghost predicate Accounts(w: World, id: Id, p: Id) {
    && LastSender(w, p) && w.senders[p].ticket.reply == id && id in w.rows
    && w.rows[id].content == w.senders[p].ticket.content
    && (w.rows[id].status == Sending ==>
          w.senders[p].ticket.revision + 1 == w.rows[id].revision && !w.senders[p].phase.Reported?)
    && (w.rows[id].status == Uncertain ==>
          w.senders[p].ticket.revision + 1 == w.rows[id].revision && w.senders[p].phase == Reported(false))
    && (w.rows[id].status == Accepted && w.rows[id].resolvedBy.None? ==>
          w.senders[p].ticket.revision + 1 == w.rows[id].revision && w.senders[p].phase == Reported(true))
  }

  /** Tickets of one reply carry different revisions, all older than the row's. */
  ghost predicate DistinctTickets(w: World) {
    && (forall p | p in w.senders :: w.senders[p].ticket.reply in w.rows
          && w.senders[p].ticket.revision < w.rows[w.senders[p].ticket.reply].revision)
    && (forall p, q | p in w.senders && q in w.senders && SameTicket(w.senders[p].ticket, w.senders[q].ticket) :: p == q)
  }

  predicate SameTicket(t: Ticket, u: Ticket) {
    t.reply == u.reply && t.revision == u.revision
  }

  ghost predicate Accounted(w: World, id: Id) {
    exists p :: Accounts(w, id, p)
  }

  ghost predicate Invariant(w: World) {
    && DistinctTickets(w)
    && (forall id | id in w.rows && w.rows[id].status != Draft :: Accounted(w, id))
    && (forall id | id in w.rows && w.rows[id].resolvedBy.Some? :: w.rows[id].status == Accepted || w.rows[id].status == Failed)
  }

  /** Row updates that never lower a revision keep the tickets distinct. */
  lemma RowsKeepTickets(w: World, rows: Rows)
    requires DistinctTickets(w)
    requires forall id | id in w.rows :: id in rows && w.rows[id].revision <= rows[id].revision
    ensures DistinctTickets(World(rows, w.senders))
  {
  }

  /** So does any progress of a sender. */
  lemma PhaseKeepsTickets(w: World, p: Id, phase: Phase)
    requires DistinctTickets(w) && p in w.senders
    ensures DistinctTickets(World(w.rows, w.senders[p := w.senders[p].(phase := phase)]))
  {
  }

  lemma RequestKeepsTickets(w: World, p: Id, id: Id, revision: nat, user: Id, transport: bool, decided: bool)
    requires DistinctTickets(w) && p !in w.senders
    ensures DistinctTickets(Step(w, Request(p, id, revision, user, transport, decided)))
  {
    if Sendable(w.rows, id, revision, transport, decided) {
      RowsKeepTickets(w, RequestStep(w.rows, id, revision, user, transport, decided).0);
    }
  }

  lemma StepKeepsTickets(w: World, e: Event)
    requires DistinctTickets(w) && Enabled(w, e)
    ensures DistinctTickets(Step(w, e))
  {
    match e
    case Create(id, d) => RowsKeepTickets(w, CreateStep(w.rows, id, d).0);
    case Update(id, d) => RowsKeepTickets(w, UpdateStep(w.rows, id, d).0);
    case Request(p, id, revision, user, transport, decided) =>
      RequestKeepsTickets(w, p, id, revision, user, transport, decided);
    case Transmit(p, ok) => PhaseKeepsTickets(w, p, Transmitted(ok));
    case Record(p) =>
      var s := w.senders[p];
      RowsKeepTickets(w, RecordStep(w.rows, s.ticket, s.phase.ok).0);
      PhaseKeepsTickets(World(RecordStep(w.rows, s.ticket, s.phase.ok).0, w.senders), p, Reported(s.phase.ok));
    case Reconcile(id, revision, outcome, proof, user) =>
      RowsKeepTickets(w, ReconcileStep(w.rows, id, revision, outcome, proof, user).0);
  }

  /** A reply keeps its sender until the next send is requested or the row is edited. */
  lemma StepKeepsAccounts(w: World, e: Event, id: Id, p: Id)
    requires DistinctTickets(w) && Enabled(w, e) && Accounts(w, id, p)
    requires id in Step(w, e).rows && Step(w, e).rows[id].status != Draft && w.rows[id].status != Draft
    requires w.rows[id].resolvedBy.Some? ==> w.rows[id].status == Accepted || w.rows[id].status == Failed
    ensures Accounts(Step(w, e), id, p)
  {
    match e
    case Create(_, _) =>
    case Update(_, _) =>
    case Request(_, _, _, _, _, _) =>
    case Transmit(_, _) =>
    case Record(q) =>
      if w.senders[q].ticket.reply == id && Current(w.rows, w.senders[q].ticket) {
        assert SameTicket(w.senders[p].ticket, w.senders[q].ticket);
      }
    case Reconcile(_, _, _, _, _) =>
  }

  lemma StepKeepsResolution(w: World, e: Event)
    requires Invariant(w) && Enabled(w, e)
    ensures var t := Step(w, e);
      forall id | id in t.rows && t.rows[id].resolvedBy.Some? :: t.rows[id].status == Accepted || t.rows[id].status == Failed
  {
  }

  lemma StepIsAccounted(w: World, e: Event, id: Id)
    requires Invariant(w) && Enabled(w, e)
    requires id in Step(w, e).rows && Step(w, e).rows[id].status != Draft
    ensures Accounted(Step(w, e), id)
  {
    if id !in w.rows || w.rows[id].status == Draft {
      assert Accounts(Step(w, e), id, e.sender);
    } else {
      assert Accounted(w, id);
      var p :| Accounts(w, id, p);
      StepKeepsAccounts(w, e, id, p);
    }
  }

  lemma StepKeepsInvariant(w: World, e: Event)
    requires Invariant(w) && Enabled(w, e)
    ensures Invariant(Step(w, e))
  {
    StepKeepsTickets(w, e);
    StepKeepsResolution(w, e);
    var t := Step(w, e);
    forall id | id in t.rows && t.rows[id].status != Draft ensures Accounted(t, id) {
      StepIsAccounted(w, e, id);
    }
  }

  lemma {:induction false} InvariantHolds(ws: seq<World>, es: seq<Event>, i: nat)
    requires IsRun(ws, es) && i < |ws|
    ensures Invariant(ws[i])
  {
    if i > 0 {
      InvariantHolds(ws, es, i - 1);
      StepKeepsInvariant(ws[i - 1], es[i - 1]);
    }
  }
}
