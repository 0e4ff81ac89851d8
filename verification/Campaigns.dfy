/** Campaigns, their members and the decisions on those (backend/investigation/collections.py,
    investigations.py, workflows.py): each route's transaction as a function on the tables, and the
    routes themselves as updates of the tables. */
module Campaigns {
  import opened Common

  datatype Status = Active | Investigating | Resolved | Closed

  /** What an analyst types into the campaign form, apart from the status. */
  datatype Details = Details(
    name: string, description: string, tags: seq<string>, verdict: Option<string>, priority: string, owner: Option<Id>)

  /** A campaign row without its timestamps. */
  datatype Campaign = Campaign(details: Details, status: Status, revision: nat, archived: bool)

  datatype Processing = Queued | Running | Completed | Failed

  datatype Act = Decided | Reopened

  /** One analyst decision; its id is its position in the log, counted from 1. */
  datatype Decision = Decision(mail: Id, act: Act)

  /** A follow-up action; `pending` while it is to do or being done. */
  datatype Action = Action(campaign: Option<Id>, mail: Option<Id>, pending: bool, revision: nat)

  datatype Reply = Reply(campaign: Option<Id>, mail: Option<Id>, sending: bool)

  datatype Tables = Tables(
    campaigns: map<Id, Campaign>, members: set<(Id, Id)>, mails: map<Id, Processing>,
    decisions: seq<Decision>, actions: map<Id, Action>, replies: map<Id, Reply>)

  datatype Error = NotFound | Conflict | ClosedCampaign | Unfinished | BadOwner | NothingToReopen | Rejected

  datatype CampaignInput = CampaignInput(details: Details, status: Status, revision: Option<nat>, ownerValid: bool)

  /** The id of the latest decision on a mail, 0 when there is none. */
  function LatestId(log: seq<Decision>, mail: Id): (id: nat)
    ensures id <= |log|
    ensures id > 0 ==> log[id - 1].mail == mail
    ensures forall n | id <= n < |log| :: log[n].mail != mail
  {
    if log == [] then 0
    else if log[|log| - 1].mail == mail then |log|
    else LatestId(log[..|log| - 1], mail)
  }

  /** The latest action on a mail, `Reopened` when there is none. */
  function Latest(log: seq<Decision>, mail: Id): Act {
    if LatestId(log, mail) == 0 then Reopened else log[LatestId(log, mail) - 1].act
  }

  lemma LatestAfter(log: seq<Decision>, d: Decision, mail: Id)
    ensures LatestId(log + [d], mail) == if d.mail == mail then |log| + 1 else LatestId(log, mail)
    ensures Latest(log + [d], mail) == if d.mail == mail then d.act else Latest(log, mail)
  {
    assert (log + [d])[..|log|] == log;
  }

  predicate Live(t: Tables, c: Id) {
    c in t.campaigns && !t.campaigns[c].archived
  }

  predicate Concerns(members: set<(Id, Id)>, c: Id, campaign: Option<Id>, mail: Option<Id>) {
    campaign == Some(c) || (mail.Some? && (c, mail.value) in members)
  }

  /** A member that stands in the way of closing: still to be processed, or completed and not decided. */
  predicate Undecided(t: Tables, mail: Id) {
    && mail in t.mails
    && (t.mails[mail] == Queued || t.mails[mail] == Running
        || (t.mails[mail] == Completed && Latest(t.decisions, mail) == Reopened))
  }

  /** guard_campaign lets the campaign be closed or archived. */
  predicate MayClose(t: Tables, c: Id) {
    && (forall a | a in t.actions :: t.actions[a].pending ==> !Concerns(t.members, c, t.actions[a].campaign, t.actions[a].mail))
    && (forall m | m in t.members :: m.0 == c ==> !Undecided(t, m.1))
    && (forall r | r in t.replies :: t.replies[r].sending ==> !Concerns(t.members, c, t.replies[r].campaign, t.replies[r].mail))
  }

  function Links(c: Id, mails: seq<Id>): set<(Id, Id)> {
    set m | m in mails :: (c, m)
  }

  predicate AllExist(t: Tables, mails: seq<Id>) {
    forall m | m in mails :: m in t.mails
  }

  /* ---- The transactions ---- */

  ghost function Inserted(t: Tables, c: Id, d: CampaignInput, mails: seq<Id>): Tables {
    t.(campaigns := t.campaigns[c := Campaign(d.details, d.status, 1, false)], members := t.members + Links(c, mails))
  }

  /** `c` is the row id the insert draws. */
  ghost function CreateStep(t: Tables, c: Id, d: CampaignInput, mails: seq<Id>): (Tables, Outcome<Campaign, Error>) {
    if !d.ownerValid then (t, Raised(BadOwner))
    else if c in t.campaigns then (t, Raised(Rejected))
    else if !AllExist(t, mails) then (t, Raised(NotFound))
    else if d.status == Closed && !MayClose(Inserted(t, c, d, mails), c) then (t, Raised(Unfinished))
    else (Inserted(t, c, d, mails), Returned(Campaign(d.details, d.status, 1, false)))
  }

  /** Why a versioned edit is refused before it looks at anything else. */
  function VersionError(t: Tables, c: Id, revision: Option<nat>): Option<Error> {
    if !Live(t, c) then Some(NotFound)
    else if revision != Some(t.campaigns[c].revision) then Some(Conflict)
    else None
  }

  ghost function Rewritten(t: Tables, c: Id, row: Campaign): Tables
    requires c in t.campaigns
  {
    t.(campaigns := t.campaigns[c := row.(revision := t.campaigns[c].revision + 1)])
  }

  ghost function UpdateStep(t: Tables, c: Id, d: CampaignInput): (Tables, Outcome<(), Error>) {
    var e := VersionError(t, c, d.revision);
    if e.Some? then (t, Raised(e.value))
    else if !d.ownerValid then (t, Raised(BadOwner))
    else if d.status == Closed && !MayClose(t, c) then (t, Raised(Unfinished))
    else (Rewritten(t, c, t.campaigns[c].(details := d.details, status := d.status)), Returned(()))
  }

  ghost function ArchiveStep(t: Tables, c: Id, revision: nat): (Tables, Outcome<(), Error>) {
    var e := VersionError(t, c, Some(revision));
    if e.Some? then (t, Raised(e.value))
    else if !MayClose(t, c) then (t, Raised(Unfinished))
    else (Rewritten(t, c, t.campaigns[c].(archived := true)), Returned(()))
  }

  ghost function AddStep(t: Tables, c: Id, mails: seq<Id>, revision: nat): (Tables, Outcome<(), Error>) {
    var e := VersionError(t, c, Some(revision));
    if e.Some? then (t, Raised(e.value))
    else if t.campaigns[c].status == Closed then (t, Raised(ClosedCampaign))
    else if !AllExist(t, mails) then (t, Raised(NotFound))
    else (Rewritten(t, c, t.campaigns[c]).(members := t.members + Links(c, mails)), Returned(()))
  }

  ghost function RemoveStep(t: Tables, c: Id, mail: Id, revision: nat): (Tables, Outcome<(), Error>) {
    var e := VersionError(t, c, Some(revision));
    if e.Some? then (t, Raised(e.value))
    else if t.campaigns[c].status == Closed then (t, Raised(ClosedCampaign))
    else (Rewritten(t, c, t.campaigns[c]).(members := t.members - {(c, mail)}), Returned(()))
  }

  ghost function DecideStep(t: Tables, mail: Id, expected: Option<nat>): (Tables, Outcome<(), Error>) {
    if mail !in t.mails then (t, Raised(NotFound))
    else if expected.Some? && expected.value != LatestId(t.decisions, mail) then (t, Raised(Conflict))
    else (t.(decisions := t.decisions + [Decision(mail, Decided)]), Returned(()))
  }

  /** Every live campaign the mail belongs to goes back to investigating, at its next revision. */
  function Awakened(t: Tables, mail: Id): map<Id, Campaign> {
    map c | c in t.campaigns ::
      if (c, mail) in t.members && !t.campaigns[c].archived
      then t.campaigns[c].(status := Investigating, revision := t.campaigns[c].revision + 1)
      else t.campaigns[c]
  }

  ghost predicate Reopens(t: Tables, mail: Id, expected: Option<nat>) {
    && mail in t.mails && (expected.Some? ==> expected.value == LatestId(t.decisions, mail))
    && Latest(t.decisions, mail) == Decided
  }

  ghost function ReopenStep(t: Tables, mail: Id, expected: Option<nat>): (Tables, Outcome<(), Error>) {
    if Reopens(t, mail, expected) then
      (t.(decisions := t.decisions + [Decision(mail, Reopened)], campaigns := Awakened(t, mail)), Returned(()))
    else (t, Raised(
      if mail !in t.mails then NotFound
      else if expected.Some? && expected.value != LatestId(t.decisions, mail) then Conflict
      else NothingToReopen))
  }

  /** workflow_scope followed by the check for a closed campaign; actions of legacy cases are not modelled. */
  function ScopeError(t: Tables, campaign: Option<Id>, mail: Option<Id>): Option<Error> {
    match campaign
    case Some(c) =>
      if !Live(t, c) then Some(NotFound)
      else if mail.Some? && (c, mail.value) !in t.members then Some(Rejected)
      else if t.campaigns[c].status == Closed then Some(ClosedCampaign)
      else None
    case None =>
      if mail.None? then Some(Rejected) else if mail.value !in t.mails then Some(NotFound) else None
  }

  /** `valid`: the owner is an active writer and a finished action documents its outcome. */
  ghost function NewActionStep(t: Tables, a: Id, campaign: Option<Id>, mail: Option<Id>, pending: bool, valid: bool)
    : (Tables, Outcome<(), Error>)
  {
    var e := ScopeError(t, campaign, mail);
    if e.Some? then (t, Raised(e.value))
    else if !valid || a in t.actions then (t, Raised(Rejected))
    else (t.(actions := t.actions[a := Action(campaign, mail, pending, 1)]), Returned(()))
  }

  ghost function EditActionStep(t: Tables, a: Id, revision: nat, pending: bool, valid: bool): (Tables, Outcome<(), Error>) {
    if a !in t.actions then (t, Raised(NotFound))
    else if revision != t.actions[a].revision then (t, Raised(Conflict))
    else
      var e := ScopeError(t, t.actions[a].campaign, t.actions[a].mail);
      if e.Some? then (t, Raised(e.value))
      else if !valid then (t, Raised(Rejected))
      else (t.(actions := t.actions[a := t.actions[a].(pending := pending, revision := revision + 1)]), Returned(()))
  }

  class CampaignDesk {
    var campaigns: map<Id, Campaign>
    var members: set<(Id, Id)>
    var mails: map<Id, Processing>
    var decisions: seq<Decision>
    var actions: map<Id, Action>
    var replies: map<Id, Reply>

    function Now(): Tables
      reads this
    {
      Tables(campaigns, members, mails, decisions, actions, replies)
    }

    constructor (t: Tables)
      ensures Now() == t
    {
      campaigns, members, mails, decisions, actions, replies :=
        t.campaigns, t.members, t.mails, t.decisions, t.actions, t.replies;
    }

    /** Nothing is inserted unless every mail exists. */
    method LinkEmails(c: Id, ids: seq<Id>) returns (ok: bool)
      modifies this`members
      ensures ok <==> AllExist(old(Now()), ids)
      ensures members == if ok then old(members) + Links(c, ids) else old(members)
    {
      for i := 0 to |ids|
        invariant forall k | 0 <= k < i :: ids[k] in mails
        invariant members == old(members)
      {
        if ids[i] !in mails {
          return false;
        }
      }
      for i := 0 to |ids|
        invariant members == old(members) + Links(c, ids[..i])
      {
        members := members + {(c, ids[i])};
        assert ids[..i + 1] == ids[..i] + [ids[i]];
        assert Links(c, ids[..i + 1]) == Links(c, ids[..i]) + {(c, ids[i])};
      }
      assert ids[..|ids|] == ids;
      ok := true;
    }

    method CreateCampaign(c: Id, d: CampaignInput, ids: seq<Id>) returns (r: Outcome<Campaign, Error>)
      modifies this
      ensures (Now(), r) == CreateStep(old(Now()), c, d, ids)
    {
      if !d.ownerValid {
        return Raised(BadOwner);
      }
      if c in campaigns {
        return Raised(Rejected);
      }
      var before, linked := campaigns, members;
      campaigns := campaigns[c := Campaign(d.details, Active, 1, false)];
      var ok := LinkEmails(c, ids);
      if !ok {
        campaigns := before;
        return Raised(NotFound);
      }
      assert campaigns[c := Campaign(d.details, d.status, 1, false)] == before[c := Campaign(d.details, d.status, 1, false)];
      if d.status == Closed {
        GuardIgnoresRows(Now(), Inserted(old(Now()), c, d, ids), c);
        if !MayClose(Now(), c) {
          campaigns, members := before, linked;
          return Raised(Unfinished);
        }
      }
      campaigns := campaigns[c := campaigns[c].(status := d.status)];
      r := Returned(campaigns[c]);
    }

    method UpdateCampaign(c: Id, d: CampaignInput) returns (r: Outcome<(), Error>)
      modifies this
      ensures (Now(), r) == UpdateStep(old(Now()), c, d)
    {
      if c !in campaigns || campaigns[c].archived {
        return Raised(NotFound);
      }
      var row := campaigns[c];
      if d.revision != Some(row.revision) {
        return Raised(Conflict);
      }
      if !d.ownerValid {
        return Raised(BadOwner);
      }
      if d.status == Closed && !MayClose(Now(), c) {
        return Raised(Unfinished);
      }
      row := row.(details := d.details, status := d.status);
      campaigns := campaigns[c := row.(revision := row.revision + 1)];
      r := Returned(());
    }

    method ArchiveCampaign(c: Id, revision: nat) returns (r: Outcome<(), Error>)
      modifies this
      ensures (Now(), r) == ArchiveStep(old(Now()), c, revision)
    {
      if c !in campaigns || campaigns[c].archived {
        return Raised(NotFound);
      }
      if campaigns[c].revision != revision {
        return Raised(Conflict);
      }
      if !MayClose(Now(), c) {
        return Raised(Unfinished);
      }
      campaigns := campaigns[c := campaigns[c].(archived := true, revision := campaigns[c].revision + 1)];
      r := Returned(());
    }

    method AddEmails(c: Id, ids: seq<Id>, revision: nat) returns (r: Outcome<(), Error>)
      modifies this
      ensures (Now(), r) == AddStep(old(Now()), c, ids, revision)
    {
      if c !in campaigns || campaigns[c].archived {
        return Raised(NotFound);
      }
      if campaigns[c].revision != revision {
        return Raised(Conflict);
      }
      if campaigns[c].status == Closed {
        return Raised(ClosedCampaign);
      }
      var ok := LinkEmails(c, ids);
      if !ok {
        return Raised(NotFound);
      }
      campaigns := campaigns[c := campaigns[c].(revision := campaigns[c].revision + 1)];
      r := Returned(());
    }

    method RemoveEmail(c: Id, mail: Id, revision: nat) returns (r: Outcome<(), Error>)
      modifies this
      ensures (Now(), r) == RemoveStep(old(Now()), c, mail, revision)
    {
      if c !in campaigns || campaigns[c].archived {
        return Raised(NotFound);
      }
      if campaigns[c].revision != revision {
        return Raised(Conflict);
      }
      if campaigns[c].status == Closed {
        return Raised(ClosedCampaign);
      }
      members := members - {(c, mail)};
      campaigns := campaigns[c := campaigns[c].(revision := campaigns[c].revision + 1)];
      r := Returned(());
    }

    method Decide(mail: Id, expected: Option<nat>) returns (r: Outcome<(), Error>)
      modifies this
      ensures (Now(), r) == DecideStep(old(Now()), mail, expected)
    {
      if mail !in mails {
        return Raised(NotFound);
      }
      var latest := LatestId(decisions, mail);
      if expected.Some? && expected.value != latest {
        return Raised(Conflict);
      }
      decisions := decisions + [Decision(mail, Decided)];
      r := Returned(());
    }

    method Reopen(mail: Id, expected: Option<nat>) returns (r: Outcome<(), Error>)
      modifies this
      ensures (Now(), r) == ReopenStep(old(Now()), mail, expected)
    {
      if mail !in mails {
        return Raised(NotFound);
      }
      var last := LatestId(decisions, mail);
      if expected.Some? && expected.value != last {
        return Raised(Conflict);
      }
      if last == 0 || decisions[last - 1].act == Reopened {
        return Raised(NothingToReopen);
      }
      campaigns := Awakened(Now(), mail);
      decisions := decisions + [Decision(mail, Reopened)];
      r := Returned(());
    }

    method CreateAction(a: Id, campaign: Option<Id>, mail: Option<Id>, pending: bool, valid: bool)
      returns (r: Outcome<(), Error>)
      modifies this
      ensures (Now(), r) == NewActionStep(old(Now()), a, campaign, mail, pending, valid)
    {
      var e := ScopeError(Now(), campaign, mail);
      if e.Some? {
        return Raised(e.value);
      }
      if !valid || a in actions {
        return Raised(Rejected);
      }
      actions := actions[a := Action(campaign, mail, pending, 1)];
      r := Returned(());
    }

    method UpdateAction(a: Id, revision: nat, pending: bool, valid: bool) returns (r: Outcome<(), Error>)
      modifies this
      ensures (Now(), r) == EditActionStep(old(Now()), a, revision, pending, valid)
    {
      if a !in actions {
        return Raised(NotFound);
      }
      var row := actions[a];
      if revision != row.revision {
        return Raised(Conflict);
      }
      var e := ScopeError(Now(), row.campaign, row.mail);
      if e.Some? {
        return Raised(e.value);
      }
      if !valid {
        return Raised(Rejected);
      }
      actions := actions[a := row.(pending := pending, revision := row.revision + 1)];
      r := Returned(());
    }
  }

  /** The guard reads members, mails, decisions, actions and replies, never the campaign rows. */
  lemma GuardIgnoresRows(t: Tables, u: Tables, c: Id)
    requires u == t.(campaigns := u.campaigns)
    ensures MayClose(t, c) <==> MayClose(u, c)
  {
    forall m | m in t.members ensures Undecided(t, m.1) <==> Undecided(u, m.1) {
    }
  }
}
