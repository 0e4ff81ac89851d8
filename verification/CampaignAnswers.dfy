/** What the campaign, decision and action routes answer, read off the rows: what exactly keeps a campaign from being
    closed or archived, and which refusal comes first. */
module CampaignAnswers {
  import opened Common
  import opened Campaigns

  /* ---- The guard ---- */

  /** An action or reply of this scope is the campaign's own, or belongs to one of its mails. */
  ghost predicate OfCampaign(t: Tables, c: Id, campaign: Option<Id>, mail: Option<Id>) {
    campaign == Some(c) || exists m :: mail == Some(m) && (c, m) in t.members
  }

  /** The last entry of the log on this mail is a decision. */
  ghost predicate Stands(log: seq<Decision>, mail: Id) {
    exists n :: 0 <= n < |log| && log[n] == Decision(mail, Decided) && forall k | n < k < |log| :: log[k].mail != mail
  }

  lemma StandsIsLatest(log: seq<Decision>, mail: Id)
    ensures Stands(log, mail) <==> Latest(log, mail) == Decided
  {
    var id := LatestId(log, mail);
    if Latest(log, mail) == Decided {
      assert log[id - 1] == Decision(mail, Decided);
    }
    if n :| 0 <= n < |log| && log[n] == Decision(mail, Decided) && forall k | n < k < |log| :: log[k].mail != mail {
      assert id == n + 1;
    }
  }

  /** A pending action or a reply being sent keeps its campaign open, or those of its mail; so does a member that is not
      yet processed, or that is completed without a decision that stands. Nothing else does. */
  lemma WhatKeepsOpen(t: Tables, c: Id)
    ensures MayClose(t, c) <==>
      && (forall a | a in t.actions && OfCampaign(t, c, t.actions[a].campaign, t.actions[a].mail) :: !t.actions[a].pending)
      && (forall r | r in t.replies && OfCampaign(t, c, t.replies[r].campaign, t.replies[r].mail) :: !t.replies[r].sending)
      && (forall m | (c, m) in t.members && m in t.mails ::
            t.mails[m] == Failed || (t.mails[m] == Completed && Stands(t.decisions, m)))
  {
    forall m ensures Stands(t.decisions, m) <==> Latest(t.decisions, m) == Decided {
      StandsIsLatest(t.decisions, m);
    }
    forall campaign, mail ensures OfCampaign(t, c, campaign, mail) <==> Concerns(t.members, c, campaign, mail) {
    }
    assert forall m | m in t.members && m.0 == c :: (c, m.1) in t.members;
  }

  /** A reply being sent holds up every campaign it concerns until the transport's result is in: neither closing nor
      archiving gets through, at any revision, and asking changes nothing. */
  lemma SendingReplyKeepsOpen(t: Tables, r: Id, c: Id, d: CampaignInput, revision: nat)
    requires r in t.replies && t.replies[r].sending && OfCampaign(t, c, t.replies[r].campaign, t.replies[r].mail)
    ensures d.status == Closed ==> UpdateStep(t, c, d).0 == t && UpdateStep(t, c, d).1.Raised?
    ensures ArchiveStep(t, c, revision).0 == t && ArchiveStep(t, c, revision).1.Raised?
  {
    WhatKeepsOpen(t, c);
  }

  /* ---- Campaigns ---- */

  predicate Missing(t: Tables, c: Id) {
    c !in t.campaigns || t.campaigns[c].archived
  }

  lemma UpdateAnswers(t: Tables, c: Id, d: CampaignInput)
    ensures UpdateStep(t, c, d) ==
      if Missing(t, c) then (t, Raised(NotFound))
      else if d.revision != Some(t.campaigns[c].revision) then (t, Raised(Conflict))
      else if !d.ownerValid then (t, Raised(BadOwner))
      else if d.status == Closed && !MayClose(t, c) then (t, Raised(Unfinished))
      else (t.(campaigns := t.campaigns[c := Campaign(d.details, d.status, t.campaigns[c].revision + 1, false)]), Returned(()))
  {
  }

  lemma ArchiveAnswers(t: Tables, c: Id, revision: nat)
    ensures ArchiveStep(t, c, revision) ==
      if Missing(t, c) then (t, Raised(NotFound))
      else if revision != t.campaigns[c].revision then (t, Raised(Conflict))
      else if !MayClose(t, c) then (t, Raised(Unfinished))
      else (t.(campaigns := t.campaigns[c := Campaign(t.campaigns[c].details, t.campaigns[c].status, revision + 1, true)]), Returned(()))
  {
  }

  /** Attaching and detaching need an open campaign; attached mails must exist, all of them. */
  lemma MembershipAnswers(t: Tables, c: Id, mails: seq<Id>, revision: nat, pair: (Id, Id))
    ensures var (u, r) := AddStep(t, c, mails, revision);
      if Missing(t, c) then u == t && r == Raised(NotFound)
      else if revision != t.campaigns[c].revision then u == t && r == Raised(Conflict)
      else if t.campaigns[c].status == Closed then u == t && r == Raised(ClosedCampaign)
      else if exists i :: 0 <= i < |mails| && mails[i] !in t.mails then u == t && r == Raised(NotFound)
      else
        && r == Returned(()) && (pair in u.members <==> pair in t.members || (pair.0 == c && pair.1 in mails))
        && u == t.(members := u.members, campaigns := t.campaigns[c := t.campaigns[c].(revision := revision + 1)])
    ensures mails != [] ==>
      var (u, r) := RemoveStep(t, c, mails[0], revision);
      if Missing(t, c) then u == t && r == Raised(NotFound)
      else if revision != t.campaigns[c].revision then u == t && r == Raised(Conflict)
      else if t.campaigns[c].status == Closed then u == t && r == Raised(ClosedCampaign)
      else
        && r == Returned(()) && (pair in u.members <==> pair in t.members && pair != (c, mails[0]))
        && u == t.(members := u.members, campaigns := t.campaigns[c := t.campaigns[c].(revision := revision + 1)])
  {
  }

  /** A new campaign starts at revision 1 with just the mails it names, and starts closed only if these leave nothing to
      do; whatever is refused leaves no trace. */
  lemma CreateAnswers(t: Tables, c: Id, d: CampaignInput, mails: seq<Id>, pair: (Id, Id))
    requires c !in t.campaigns
    ensures var (u, r) := CreateStep(t, c, d, mails);
      if !d.ownerValid then u == t && r == Raised(BadOwner)
      else if exists i :: 0 <= i < |mails| && mails[i] !in t.mails then u == t && r == Raised(NotFound)
      else if r.Raised? then u == t && r == Raised(Unfinished) && d.status == Closed
      else
        && (pair in u.members <==> pair in t.members || (pair.0 == c && pair.1 in mails))
        && u == t.(members := u.members, campaigns := t.campaigns[c := Campaign(d.details, d.status, 1, false)])
        && r == Returned(u.campaigns[c]) && (d.status == Closed ==> MayClose(u, c))
  {
  }

  /** Starting closed is refused only where the guard would refuse it. */
  lemma CreatedClosedIff(t: Tables, c: Id, d: CampaignInput, mails: seq<Id>)
    requires c !in t.campaigns && d.ownerValid && d.status == Closed && forall i | 0 <= i < |mails| :: mails[i] in t.mails
    ensures var open := CreateStep(t, c, d.(status := Active), mails).0;
      CreateStep(t, c, d, mails).1.Returned? <==> MayClose(open, c)
  {
    var open := CreateStep(t, c, d.(status := Active), mails).0;
    GuardIgnoresRows(Inserted(t, c, d, mails), open, c);
  }

  /* ---- Decisions ---- */

  lemma DecideAnswers(t: Tables, mail: Id, expected: Option<nat>)
    ensures DecideStep(t, mail, expected) ==
      if mail !in t.mails then (t, Raised(NotFound))
      else if expected.Some? && expected.value != LatestId(t.decisions, mail) then (t, Raised(Conflict))
      else (t.(decisions := t.decisions + [Decision(mail, Decided)]), Returned(()))
  {
  }

  /** A reopening needs a decision that stands, and wakes the live campaigns of the mail and no others. */
  lemma ReopenAnswers(t: Tables, mail: Id, expected: Option<nat>, c: Id)
    ensures var (u, r) := ReopenStep(t, mail, expected);
      if mail !in t.mails then u == t && r == Raised(NotFound)
      else if expected.Some? && expected.value != LatestId(t.decisions, mail) then u == t && r == Raised(Conflict)
      else if !Stands(t.decisions, mail) then u == t && r == Raised(NothingToReopen)
      else
        && r == Returned(()) && u.decisions == t.decisions + [Decision(mail, Reopened)]
        && u == t.(decisions := u.decisions, campaigns := u.campaigns) && (c in u.campaigns <==> c in t.campaigns)
        && (c in t.campaigns ==>
              && var woken := (c, mail) in t.members && !t.campaigns[c].archived;
              u.campaigns[c] == if woken then t.campaigns[c].(status := Investigating, revision := t.campaigns[c].revision + 1) else t.campaigns[c])
  {
    StandsIsLatest(t.decisions, mail);
  }

  /* ---- Actions ---- */

  /** Why an action of this scope cannot be created or changed. */
  ghost predicate ScopeRefuses(t: Tables, campaign: Option<Id>, mail: Option<Id>, e: Error) {
    match campaign
    case None => (mail.None? && e == Rejected) || (mail.Some? && mail.value !in t.mails && e == NotFound)
    case Some(c) =>
      if Missing(t, c) then e == NotFound
      else if mail.Some? && (c, mail.value) !in t.members then e == Rejected
      else t.campaigns[c].status == Closed && e == ClosedCampaign
  }

  lemma ScopeAnswers(t: Tables, campaign: Option<Id>, mail: Option<Id>)
    ensures match ScopeError(t, campaign, mail)
      case Some(e) => ScopeRefuses(t, campaign, mail, e)
      case None => forall e :: !ScopeRefuses(t, campaign, mail, e)
  {
  }

  /** An action belongs to an open campaign or an existing mail, and needs a valid owner and a documented outcome. */
  lemma NewActionAnswers(t: Tables, a: Id, campaign: Option<Id>, mail: Option<Id>, pending: bool, valid: bool)
    requires a !in t.actions
    ensures match NewActionStep(t, a, campaign, mail, pending, valid)
      case (u, Raised(e)) => u == t && (ScopeRefuses(t, campaign, mail, e) || (!valid && e == Rejected))
      case (u, Returned(_)) =>
        && valid && (forall e :: !ScopeRefuses(t, campaign, mail, e))
        && u == t.(actions := t.actions[a := Action(campaign, mail, pending, 1)])
      case _ => false
  {
    ScopeAnswers(t, campaign, mail);
  }

  /** It changes only at its own revision, within the scope it was created with. */
  lemma EditActionAnswers(t: Tables, a: Id, revision: nat, pending: bool, valid: bool)
    ensures a !in t.actions ==> EditActionStep(t, a, revision, pending, valid) == (t, Raised(NotFound))
    ensures a in t.actions ==>
      var (u, r) := EditActionStep(t, a, revision, pending, valid);
      var row := t.actions[a];
      && (r == Raised(Conflict) <==> revision != row.revision)
      && (r.Returned? <==> revision == row.revision && valid && forall e :: !ScopeRefuses(t, row.campaign, row.mail, e))
      && u == (if r.Returned? then t.(actions := t.actions[a := Action(row.campaign, row.mail, pending, revision + 1)]) else t)
      && (r.Raised? && revision == row.revision ==> ScopeRefuses(t, row.campaign, row.mail, r.error) || (!valid && r.error == Rejected))
  {
    if a in t.actions {
      ScopeAnswers(t, t.actions[a].campaign, t.actions[a].mail);
    }
  }
}
