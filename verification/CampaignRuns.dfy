/** Every interleaving of the campaign, decision and action routes with the processing of the mails.
    A run starts from any tables at all. */
module CampaignRuns {
  import opened Common
  import opened Campaigns

  datatype Event =
    | Create(c: Id, input: CampaignInput, ids: seq<Id>)
    | Update(c: Id, input: CampaignInput)
    | Archive(c: Id, revision: nat)
    | Add(c: Id, ids: seq<Id>, revision: nat)
    | Remove(c: Id, mail: Id, revision: nat)
    | Decide(mail: Id, expected: Option<nat>)
    | Reopen(mail: Id, expected: Option<nat>)
    | NewAction(a: Id, campaign: Option<Id>, scope: Option<Id>, pending: bool, valid: bool)
    | EditAction(a: Id, version: nat, pending: bool, valid: bool)
    | Process(mail: Id, status: Processing)
    | Correspond(replies: map<Id, Reply>)

  /** The job queue moves a mail as it likes, except that completed is terminal (JobTheorems). */
  predicate Enabled(t: Tables, e: Event) {
    e.Process? && e.mail in t.mails ==> t.mails[e.mail] != Completed
  }

  /** The tables after an event, and whether its transaction committed. */
  ghost function Effect(t: Tables, e: Event): (Tables, bool) {
    match e
    case Create(c, d, ids) => var (u, r) := CreateStep(t, c, d, ids); (u, r.Returned?)
    case Update(c, d) => var (u, r) := UpdateStep(t, c, d); (u, r.Returned?)
    case Archive(c, revision) => var (u, r) := ArchiveStep(t, c, revision); (u, r.Returned?)
    case Add(c, ids, revision) => var (u, r) := AddStep(t, c, ids, revision); (u, r.Returned?)
    case Remove(c, mail, revision) => var (u, r) := RemoveStep(t, c, mail, revision); (u, r.Returned?)
    case Decide(mail, expected) => var (u, r) := DecideStep(t, mail, expected); (u, r.Returned?)
    case Reopen(mail, expected) => var (u, r) := ReopenStep(t, mail, expected); (u, r.Returned?)
    case NewAction(a, c, m, pending, valid) => var (u, r) := NewActionStep(t, a, c, m, pending, valid); (u, r.Returned?)
    case EditAction(a, version, pending, valid) => var (u, r) := EditActionStep(t, a, version, pending, valid); (u, r.Returned?)
    case Process(mail, status) => (t.(mails := t.mails[mail := status]), true)
    case Correspond(replies) => (t.(replies := replies), true)
  }

  ghost predicate IsRun(ts: seq<Tables>, es: seq<Event>) {
    && |ts| == |es| + 1
    && forall i | 0 <= i < |es| :: Enabled(ts[i], es[i]) && ts[i + 1] == Effect(ts[i], es[i]).0
  }

  /* ---- Closed campaigns ---- */

  predicate IsClosed(t: Tables, c: Id) {
    c in t.campaigns && t.campaigns[c].status == Closed
  }

  /** A member that is completed and whose latest decision stands. */
  predicate Settled(t: Tables, c: Id, mail: Id) {
    (c, mail) in t.members && mail in t.mails && t.mails[mail] == Completed && Latest(t.decisions, mail) == Decided
  }

  function MembersOf(t: Tables, c: Id): set<Id> {
    set m | m in t.members && m.0 == c :: m.1
  }

  predicate OwnActionsDone(t: Tables, c: Id) {
    forall a | a in t.actions && t.actions[a].campaign == Some(c) :: !t.actions[a].pending
  }

  /** Whatever brings a live campaign into the closed status, it comes with nothing left to do. */
  lemma ClosingSettles(t: Tables, e: Event, c: Id)
    requires Enabled(t, e)
    requires IsClosed(Effect(t, e).0, c) && !IsClosed(t, c)
    ensures var u := Effect(t, e).0;
      && (e.Create? || e.Update?) && MayClose(u, c) && OwnActionsDone(u, c)
      && forall m | m in MembersOf(u, c) && m in u.mails :: u.mails[m] == Failed || Settled(u, c, m)
  {
    var u := Effect(t, e).0;
    match e {
      case Update(d, _) =>
        GuardIgnoresRows(t, u, c);
        assert MayClose(u, c);
      case Create(_, _, _) =>
        assert MayClose(u, c);
      case _ =>
    }
    forall m | m in MembersOf(u, c) && m in u.mails ensures u.mails[m] == Failed || Settled(u, c, m) {
      assert (c, m) in u.members && !Undecided(u, m);
    }
  }

  /** What an event appends to the log. */
  ghost function Appended(t: Tables, e: Event): seq<Decision> {
    if e.Decide? && Effect(t, e).1 then [Decision(e.mail, Decided)]
    else if e.Reopen? && Effect(t, e).1 then [Decision(e.mail, Campaigns.Reopened)]
    else []
  }

  lemma LogStep(t: Tables, e: Event)
    ensures Effect(t, e).0.decisions == t.decisions + Appended(t, e)
  {
  }

  /** Only a committed decision or reopening of the mail itself moves its latest action. */
  lemma LatestStep(t: Tables, e: Event, mail: Id)
    ensures var (u, done) := Effect(t, e);
      Latest(u.decisions, mail) ==
        if done && e.Decide? && e.mail == mail then Decided
        else if done && e.Reopen? && e.mail == mail then Campaigns.Reopened
        else Latest(t.decisions, mail)
  {
    var added := Appended(t, e);
    LogStep(t, e);
    if added == [] {
      assert t.decisions + added == t.decisions;
    } else {
      LatestAfter(t.decisions, added[0], mail);
    }
  }

  /** A completed mail stays completed, and a closed campaign keeps its members. */
  lemma PlaceStep(t: Tables, e: Event, c: Id, mail: Id)
    requires Enabled(t, e) && IsClosed(t, c) && IsClosed(Effect(t, e).0, c)
    ensures var u := Effect(t, e).0;
      && ((c, mail) in u.members <==> (c, mail) in t.members)
      && (mail in t.mails && t.mails[mail] == Completed ==> mail in u.mails && u.mails[mail] == Completed)
  {
  }

  /** A committed reopening leaves no live campaign of the mail closed. */
  lemma ReopeningMeetsClosed(t: Tables, e: Event, c: Id)
    requires e.Reopen? && Effect(t, e).1 && (c, e.mail) in t.members && IsClosed(Effect(t, e).0, c)
    ensures c in t.campaigns && t.campaigns[c].archived
  {
  }

  /** One event, a campaign closed before and after it, a settled member: the member is settled afterwards
      exactly if the event does not reopen it behind an archived campaign. */
  lemma ClosedMemberStep(t: Tables, e: Event, u: Tables, c: Id, mail: Id)
    requires Enabled(t, e) && u == Effect(t, e).0 && IsClosed(t, c) && IsClosed(u, c) && Settled(t, c, mail)
    ensures Settled(u, c, mail) <==> !(e.Reopen? && e.mail == mail && Effect(t, e).1 && t.campaigns[c].archived)
  {
    LatestStep(t, e, mail);
    PlaceStep(t, e, c, mail);
    if e.Reopen? && e.mail == mail && Effect(t, e).1 {
      ReopeningMeetsClosed(t, e, c);
    }
  }

  /** While a campaign is closed, live or archived, its members do not change and none of its own actions
      becomes pending. */
  lemma ClosedCampaignStep(t: Tables, e: Event, u: Tables, c: Id)
    requires Enabled(t, e) && u == Effect(t, e).0 && IsClosed(t, c) && IsClosed(u, c)
    ensures MembersOf(u, c) == MembersOf(t, c)
    ensures OwnActionsDone(t, c) ==> OwnActionsDone(u, c)
  {
    assert forall m :: (c, m) in u.members <==> (c, m) in t.members;
  }

  predicate ClosedThroughout(ts: seq<Tables>, i: nat, k: nat, c: Id) {
    i <= k < |ts| && forall j | i <= j <= k :: IsClosed(ts[j], c)
  }

  predicate LiveThroughout(ts: seq<Tables>, i: nat, k: nat, c: Id) {
    i <= k < |ts| && forall j | i <= j <= k :: Live(ts[j], c)
  }

  lemma LiveMemberStep(t: Tables, e: Event, u: Tables, c: Id, mail: Id)
    requires Enabled(t, e) && u == Effect(t, e).0 && IsClosed(t, c) && IsClosed(u, c) && Settled(t, c, mail) && Live(t, c)
    ensures Settled(u, c, mail)
  {
    ClosedMemberStep(t, e, u, c, mail);
  }

  /** Everything a closed campaign was closed with stays as it was, for as long as it stays closed and live. */
  lemma {:induction false} ClosedCampaignStaysSettled(ts: seq<Tables>, es: seq<Event>, i: nat, k: nat, c: Id, mail: Id)
    requires IsRun(ts, es) && ClosedThroughout(ts, i, k, c)
    requires LiveThroughout(ts, i, k, c)
    requires Settled(ts[i], c, mail)
    ensures Settled(ts[k], c, mail)
    decreases k - i
  {
    if i < k {
      LiveMemberStep(ts[i], es[i], ts[i + 1], c, mail);
      ClosedCampaignStaysSettled(ts, es, i + 1, k, c, mail);
    }
  }

  /** The same for its membership and its own actions, archived or not. */
  lemma {:induction false} ClosedCampaignIsFrozen(ts: seq<Tables>, es: seq<Event>, i: nat, k: nat, c: Id)
    requires IsRun(ts, es) && ClosedThroughout(ts, i, k, c)
    ensures MembersOf(ts[k], c) == MembersOf(ts[i], c)
    ensures OwnActionsDone(ts[i], c) ==> OwnActionsDone(ts[k], c)
    decreases k - i
  {
    if i < k {
      ClosedCampaignStep(ts[i], es[i], ts[i + 1], c);
      ClosedCampaignIsFrozen(ts, es, i + 1, k, c);
    }
  }

  /** From the event that closed it on: a live closed campaign still has the members it was closed with, each
      of them decided unless its processing had failed, and no action of its own to do. */
  lemma ClosedMeansFinished(ts: seq<Tables>, es: seq<Event>, i: nat, k: nat, c: Id)
    requires IsRun(ts, es) && ClosedThroughout(ts, i + 1, k, c) && !IsClosed(ts[i], c)
    requires LiveThroughout(ts, i + 1, k, c)
    ensures MembersOf(ts[k], c) == MembersOf(ts[i + 1], c) && OwnActionsDone(ts[k], c)
    ensures forall m | m in MembersOf(ts[k], c) && m in ts[i + 1].mails ::
      ts[i + 1].mails[m] == Failed || Settled(ts[k], c, m)
  {
    assert IsClosed(ts[i + 1], c);
    ClosingSettles(ts[i], es[i], c);
    ClosedCampaignIsFrozen(ts, es, i + 1, k, c);
    forall m | m in MembersOf(ts[k], c) && m in ts[i + 1].mails
      ensures ts[i + 1].mails[m] == Failed || Settled(ts[k], c, m)
    {
      if ts[i + 1].mails[m] != Failed {
        ClosedCampaignStaysSettled(ts, es, i + 1, k, c, m);
      }
    }
  }

  lemma ExtendRun(ts: seq<Tables>, es: seq<Event>, e: Event, t: Tables)
    requires IsRun(ts, es) && Enabled(ts[|es|], e) && t == Effect(ts[|es|], e).0
    ensures IsRun(ts + [t], es + [e])
  {
    var us, ds := ts + [t], es + [e];
    forall i | 0 <= i < |ds| ensures Enabled(us[i], ds[i]) && us[i + 1] == Effect(us[i], ds[i]).0 {
      if i < |es| { assert Enabled(ts[i], es[i]) && ts[i + 1] == Effect(ts[i], es[i]).0; }
    }
  }

  const EMPTY := Tables(map[], {}, map[], [], map[], map[])

  /** Mail 7 completed and decided. */
  function Ready(): Tables {
    Tables(map[], {}, map[7 := Completed], [Decision(7, Decided)], map[], map[])
  }

  /** Mail 7 in a closed campaign 1. */
  function Filed(d: Details): Tables {
    Ready().(campaigns := map[1 := Campaign(d, Closed, 1, false)], members := {(1, 7)})
  }

  lemma ReadyRun() returns (ts: seq<Tables>, es: seq<Event>)
    ensures IsRun(ts, es) && |es| == 2 && ts[0] == EMPTY && ts[2] == Ready()
  {
    var processed := EMPTY.(mails := map[7 := Completed]);
    ts, es := [EMPTY], [];
    ExtendRun(ts, es, Process(7, Completed), processed);
    ts, es := ts + [processed], es + [Process(7, Completed)];
    assert [] + [Decision(7, Decided)] == [Decision(7, Decided)];
    ExtendRun(ts, es, Decide(7, None), Ready());
    ts, es := ts + [Ready()], es + [Decide(7, None)];
  }

  lemma FiledMayClose(d: Details)
    ensures MayClose(Filed(d), 1) && Settled(Filed(d), 1, 7)
  {
    assert [] + [Decision(7, Decided)] == [Decision(7, Decided)];
    LatestAfter([], Decision(7, Decided), 7);
  }

  lemma FiledRun(d: Details) returns (ts: seq<Tables>, es: seq<Event>)
    ensures IsRun(ts, es) && |es| == 3 && ts[0] == EMPTY && ts[3] == Filed(d)
  {
    ts, es := ReadyRun();
    FiledMayClose(d);
    var input := CampaignInput(d, Closed, None, true);
    assert Inserted(Ready(), 1, input, [7]) == Filed(d);
    ExtendRun(ts, es, Create(1, input, [7]), Filed(d));
    ts, es := ts + [Filed(d)], es + [Create(1, input, [7])];
  }

  /** Without the word "live" the promise is false: reopening a mail skips archived campaigns, so one that is
      closed and then archived, both past the guard, keeps a member nobody has decided. */
  lemma ArchivedCampaignKeepsReopenedMember(d: Details) returns (ts: seq<Tables>, es: seq<Event>)
    ensures IsRun(ts, es) && |es| == 5 && ts[0] == EMPTY
    ensures IsClosed(ts[3], 1) && IsClosed(ts[4], 1) && IsClosed(ts[5], 1)
    ensures MayClose(ts[4], 1) && Settled(ts[4], 1, 7)
    ensures es[4] == Reopen(7, None) && Effect(ts[4], es[4]).1
    ensures !Settled(ts[5], 1, 7) && Undecided(ts[5], 7) && 7 in MembersOf(ts[5], 1)
  {
    ts, es := FiledRun(d);
    FiledMayClose(d);
    var archived := Filed(d).(campaigns := map[1 := Campaign(d, Closed, 2, true)]);
    GuardIgnoresRows(Filed(d), archived, 1);
    ExtendRun(ts, es, Archive(1, 1), archived);
    ts, es := ts + [archived], es + [Archive(1, 1)];
    var reopened := Effect(archived, Reopen(7, None)).0;
    ExtendRun(ts, es, Reopen(7, None), reopened);
    ts, es := ts + [reopened], es + [Reopen(7, None)];
    LatestAfter(archived.decisions, Decision(7, Campaigns.Reopened), 7);
    assert (1, 7) in reopened.members;
  }

  /** Reopening a mail wakes every live campaign it belongs to: none of them is closed afterwards. */
  lemma ReopeningWakesCampaigns(t: Tables, mail: Id, expected: Option<nat>, c: Id)
    requires Effect(t, Reopen(mail, expected)).1 && Live(t, c) && (c, mail) in t.members
    ensures var u := Effect(t, Reopen(mail, expected)).0;
      && u.campaigns[c].status == Investigating && Latest(u.decisions, mail) == Campaigns.Reopened
      && (t.mails[mail] != Failed ==> !MayClose(u, c))
  {
    LatestAfter(t.decisions, Decision(mail, Campaigns.Reopened), mail);
    var u := Effect(t, Reopen(mail, expected)).0;
    assert t.mails[mail] != Failed ==> Undecided(u, mail);
  }

  /* ---- Revisions ---- */

  /** A row that an event changes moves to its next revision; nothing deletes a row. */
  lemma RowStep(t: Tables, e: Event, c: Id)
    requires c in t.campaigns
    ensures var u := Effect(t, e).0;
      c in u.campaigns
      && (u.campaigns[c] == t.campaigns[c] || u.campaigns[c].revision == t.campaigns[c].revision + 1)
  {
  }

  lemma {:induction false} RevisionsGrow(ts: seq<Tables>, es: seq<Event>, i: nat, k: nat, c: Id)
    requires IsRun(ts, es) && i <= k < |ts| && c in ts[i].campaigns
    ensures c in ts[k].campaigns && ts[i].campaigns[c].revision <= ts[k].campaigns[c].revision
    ensures ts[i].campaigns[c].revision == ts[k].campaigns[c].revision ==> ts[i].campaigns[c] == ts[k].campaigns[c]
    decreases k - i
  {
    if i < k {
      RowStep(ts[i], es[i], c);
      RevisionsGrow(ts, es, i + 1, k, c);
    }
  }

  /** Seeing the same revision twice means nothing but timestamps can have changed in between. */
  lemma SameRevisionSameRow(ts: seq<Tables>, es: seq<Event>, i: nat, k: nat, c: Id)
    requires IsRun(ts, es) && i < |ts| && k < |ts| && c in ts[i].campaigns && c in ts[k].campaigns
    requires ts[i].campaigns[c].revision == ts[k].campaigns[c].revision
    ensures ts[i].campaigns[c] == ts[k].campaigns[c]
  {
    if i <= k {
      RevisionsGrow(ts, es, i, k, c);
    } else {
      RevisionsGrow(ts, es, k, i, c);
    }
  }

  /** An edit of campaign c made against a revision the analyst had seen. */
  predicate Edits(e: Event, c: Id, revision: nat) {
    match e
    case Update(d, input) => d == c && input.revision == Some(revision)
    case Archive(d, r) => d == c && r == revision
    case Add(d, _, r) => d == c && r == revision
    case Remove(d, _, r) => d == c && r == revision
    case _ => false
  }

  /** Of all edits made against one revision at most one is accepted: no analyst overwrites what they have
      not seen. */
  lemma EachRevisionEditedOnce(ts: seq<Tables>, es: seq<Event>, i: nat, k: nat, c: Id, revision: nat)
    requires IsRun(ts, es) && i < |es| && k < |es|
    requires Edits(es[i], c, revision) && Effect(ts[i], es[i]).1
    requires Edits(es[k], c, revision) && Effect(ts[k], es[k]).1
    ensures i == k
  {
    assert c in ts[i].campaigns && ts[i].campaigns[c].revision == revision;
    assert c in ts[k].campaigns && ts[k].campaigns[c].revision == revision;
    if i < k {
      assert ts[i + 1].campaigns[c].revision == revision + 1;
      RevisionsGrow(ts, es, i + 1, k, c);
    } else if k < i {
      assert ts[k + 1].campaigns[c].revision == revision + 1;
      RevisionsGrow(ts, es, k + 1, i, c);
    }
  }

  /* ---- Decisions ---- */

  lemma StepAppends(t: Tables, e: Event)
    ensures t.decisions <= Effect(t, e).0.decisions
  {
  }

  lemma {:induction false} DecisionsAreAppended(ts: seq<Tables>, es: seq<Event>, i: nat, k: nat)
    requires IsRun(ts, es) && i <= k < |ts|
    ensures ts[i].decisions <= ts[k].decisions
    decreases k - i
  {
    if i < k {
      StepAppends(ts[i], es[i]);
      DecisionsAreAppended(ts, es, i + 1, k);
    }
  }

  lemma {:induction false} LatestIdGrows(log: seq<Decision>, later: seq<Decision>, mail: Id)
    requires log <= later
    ensures LatestId(log, mail) <= LatestId(later, mail)
    decreases |later|
  {
    if log != later {
      assert later[..|later| - 1] + [later[|later| - 1]] == later;
      LatestIdGrows(log, later[..|later| - 1], mail);
      LatestAfter(later[..|later| - 1], later[|later| - 1], mail);
    }
  }

  /** A decision or a reopening on a mail that names the decision it builds on. */
  predicate BuildsOn(e: Event, mail: Id, id: nat) {
    (e.Decide? || e.Reopen?) && e.mail == mail && e.expected == Some(id)
  }

  /** Each decision is built on at most once: two analysts looking at the same history cannot both conclude. */
  lemma EachDecisionBuiltOnOnce(ts: seq<Tables>, es: seq<Event>, i: nat, k: nat, mail: Id, id: nat)
    requires IsRun(ts, es) && i < k < |es|
    requires BuildsOn(es[i], mail, id) && Effect(ts[i], es[i]).1
    requires BuildsOn(es[k], mail, id)
    ensures !Effect(ts[k], es[k]).1 && ts[k + 1] == ts[k]
  {
    LatestAfter(ts[i].decisions, Decision(mail, if es[i].Decide? then Decided else Campaigns.Reopened), mail);
    DecisionsAreAppended(ts, es, i + 1, k);
    LatestIdGrows(ts[i + 1].decisions, ts[k].decisions, mail);
  }

  /** Decisions and reopenings of one mail alternate in one direction only: a reopening always answers a
      standing decision. */
  lemma ReopeningAnswersDecision(ts: seq<Tables>, es: seq<Event>, i: nat)
    requires IsRun(ts, es) && i < |es| && es[i].Reopen? && Effect(ts[i], es[i]).1
    ensures var id := LatestId(ts[i].decisions, es[i].mail);
      id > 0 && ts[i].decisions[id - 1] == Decision(es[i].mail, Decided)
      && ts[i + 1].decisions == ts[i].decisions + [Decision(es[i].mail, Campaigns.Reopened)]
  {
  }

  /* ---- What the routes mean to each other ---- */

  /** An accepted update reads back as it was typed, one revision on, and is the only thing that changed; whoever typed
      against the same revision is refused from then on. */
  lemma UpdateReadsBack(t: Tables, c: Id, d: CampaignInput, late: CampaignInput)
    requires UpdateStep(t, c, d).1.Returned? && late.revision == d.revision
    ensures var u := UpdateStep(t, c, d).0;
      && u.campaigns[c] == Campaign(d.details, d.status, t.campaigns[c].revision + 1, false)
      && u == t.(campaigns := u.campaigns) && u.campaigns - {c} == t.campaigns - {c}
      && (d.status == Closed ==> MayClose(u, c))
      && UpdateStep(u, c, late) == (u, Raised(Conflict))
  {
    var u := UpdateStep(t, c, d).0;
    GuardIgnoresRows(t, u, c);
  }

  /** An archived campaign keeps its details, status and members, at the next revision, and no route finds it again. */
  lemma ArchiveKeepsContents(t: Tables, c: Id, revision: nat, e: Event, later: nat)
    requires ArchiveStep(t, c, revision).1.Returned? && Edits(e, c, later)
    ensures var u := ArchiveStep(t, c, revision).0;
      && u.campaigns[c] == t.campaigns[c].(archived := true, revision := revision + 1)
      && u == t.(campaigns := u.campaigns) && u.campaigns - {c} == t.campaigns - {c} && MayClose(u, c)
      && Effect(u, e) == (u, false)
  {
    var u := ArchiveStep(t, c, revision).0;
    GuardIgnoresRows(t, u, c);
  }

  /** Row and membership of the campaign are the same in both tables. */
  ghost predicate Untouched(t: Tables, u: Tables, c: Id) {
    c in t.campaigns && c in u.campaigns && u.campaigns[c] == t.campaigns[c] && MembersOf(u, c) == MembersOf(t, c)
  }

  lemma ArchivedStep(t: Tables, e: Event, c: Id)
    requires c in t.campaigns && t.campaigns[c].archived
    ensures Untouched(t, Effect(t, e).0, c)
  {
    var u := Effect(t, e).0;
    assert forall m :: (c, m) in u.members <==> (c, m) in t.members;
  }

  lemma {:induction false} UntouchedAlong(ts: seq<Tables>, i: nat, k: nat, c: Id)
    requires i <= k < |ts| && c in ts[i].campaigns
    requires forall n | i <= n < k :: Untouched(ts[i], ts[n], c) ==> Untouched(ts[n], ts[n + 1], c)
    ensures Untouched(ts[i], ts[k], c)
  {
    if i < k {
      UntouchedAlong(ts, i, k - 1, c);
    }
  }

  /** Archiving is final: over all runs neither the row of an archived campaign nor its membership changes again. */
  lemma ArchivedIsFinal(ts: seq<Tables>, es: seq<Event>, i: nat, k: nat, c: Id)
    requires IsRun(ts, es) && i <= k < |ts| && c in ts[i].campaigns && ts[i].campaigns[c].archived
    ensures c in ts[k].campaigns && ts[k].campaigns[c] == ts[i].campaigns[c]
    ensures MembersOf(ts[k], c) == MembersOf(ts[i], c)
  {
    forall n | i <= n < k ensures Untouched(ts[i], ts[n], c) ==> Untouched(ts[n], ts[n + 1], c) {
      if Untouched(ts[i], ts[n], c) {
        ArchivedStep(ts[n], es[n], c);
      }
    }
    UntouchedAlong(ts, i, k, c);
  }

  /** Detaching a mail undoes attaching it, but for two revisions. */
  lemma DetachUndoesAttach(t: Tables, c: Id, mail: Id, revision: nat)
    requires AddStep(t, c, [mail], revision).1.Returned? && (c, mail) !in t.members
    ensures var u := AddStep(t, c, [mail], revision).0;
      var (v, r) := RemoveStep(u, c, mail, revision + 1);
      && (c, mail) in u.members && r.Returned?
      && v == t.(campaigns := t.campaigns[c := t.campaigns[c].(revision := revision + 2)])
  {
    var u := AddStep(t, c, [mail], revision).0;
    assert Links(c, [mail]) == {(c, mail)};
    assert u.members - {(c, mail)} == t.members;
  }

  /** A decision stands under a new id until it is reopened, which it can be just once. */
  lemma DecisionStandsUntilReopened(t: Tables, mail: Id, expected: Option<nat>)
    requires DecideStep(t, mail, expected).1.Returned?
    ensures var u := DecideStep(t, mail, expected).0;
      && Latest(u.decisions, mail) == Decided && LatestId(u.decisions, mail) == |u.decisions| > LatestId(t.decisions, mail)
      && var (v, r) := ReopenStep(u, mail, Some(LatestId(u.decisions, mail)));
      && r.Returned? && Latest(v.decisions, mail) == Campaigns.Reopened
      && ReopenStep(v, mail, None) == (v, Raised(NothingToReopen))
  {
    var u := DecideStep(t, mail, expected).0;
    LatestAfter(t.decisions, Decision(mail, Decided), mail);
    LatestAfter(u.decisions, Decision(mail, Campaigns.Reopened), mail);
  }

  /** A pending action keeps every campaign it concerns open: its own, or those of its mail. */
  lemma PendingActionBlocksClosing(t: Tables, a: Id, campaign: Option<Id>, mail: Option<Id>, valid: bool, c: Id)
    requires NewActionStep(t, a, campaign, mail, true, valid).1.Returned?
    requires Concerns(t.members, c, campaign, mail)
    ensures !MayClose(NewActionStep(t, a, campaign, mail, true, valid).0, c)
  {
    var u := NewActionStep(t, a, campaign, mail, true, valid).0;
    assert a in u.actions && u.actions[a].pending;
  }

  /** Once it is done, it no longer counts: creating an action and finishing it leaves every campaign as free to be
      closed as it was before. */
  lemma FinishedActionBlocksNothing(t: Tables, a: Id, campaign: Option<Id>, mail: Option<Id>, pending: bool, c: Id)
    requires NewActionStep(t, a, campaign, mail, pending, true).1.Returned?
    ensures var u := NewActionStep(t, a, campaign, mail, pending, true).0;
      var (v, r) := EditActionStep(u, a, 1, false, true);
      r.Returned? && (MayClose(v, c) <==> MayClose(t, c))
  {
    var u := NewActionStep(t, a, campaign, mail, pending, true).0;
    var v := EditActionStep(u, a, 1, false, true).0;
    assert forall b :: b in v.actions <==> b == a || b in t.actions;
    assert forall b | b in t.actions :: b != a && v.actions[b] == t.actions[b];
    assert !v.actions[a].pending;
    forall m | m in t.members ensures Undecided(t, m.1) <==> Undecided(v, m.1) {
    }
    if MayClose(v, c) {
      forall b | b in t.actions && t.actions[b].pending ensures !Concerns(t.members, c, t.actions[b].campaign, t.actions[b].mail) {
        assert v.actions[b].pending;
      }
    }
  }
}
