/** The migration as the loops over rows that perform it (backend/investigation/collections.py). */
module LegacyService {
  import opened Common
  import opened LegacyMigration

  class Migrator {
    var legacy: Legacy
    var campaigns: map<Id, Campaign>
    var links: map<Id, Link>
    var notes: map<Id, Copy>
    var members: set<(Id, Id)>
    var actions: map<Id, Id>
    var replies: map<Id, Id>
    var intelligence: map<Id, Id>
    var eventMail: map<Id, Id>
    var campaignEvents: set<(Id, Id)>

    function Now(): Projected
      reads this
    {
      Projected(campaigns, links, notes, members, actions, replies, intelligence, eventMail, campaignEvents)
    }

    constructor (l: Legacy, p: Projected)
      ensures legacy == l && Now() == p
    {
      legacy := l;
      campaigns, links, notes, members := p.campaigns, p.links, p.notes, p.members;
      actions, replies, intelligence := p.actions, p.replies, p.intelligence;
      eventMail, campaignEvents := p.eventMail, p.campaignEvents;
    }

    /** The rows of a query that asks for no order, in some order. */
    static method Rows(ids: set<Id>) returns (rows: seq<Id>)
      ensures Seen(rows, |rows|) == ids && |rows| == |ids| && Distinct(rows)
    {
      rows := [];
      var rest := ids;
      while rest != {}
        invariant rest <= ids && Seen(rows, |rows|) == ids - rest && |rows| == |ids| - |rest| && Distinct(rows)
        decreases |rest|
      {
        var r :| r in rest;
        rest := rest - {r};
        SeenMore(rows, r);
        rows := rows + [r];
      }
    }

    /** Reads the first mail only where the case is known to hold exactly one. */
    static method MeaningfulCase(d: Dossier, rows: seq<Id>) returns (meaningful: bool)
      requires Seen(rows, |rows|) == d.emails.Keys && |rows| == |d.emails.Keys|
      ensures meaningful <==> Meaningful(d)
      ensures |rows| == 1 ==> Sole(d.emails) == Some(rows[0])
      ensures |rows| != 1 ==> Sole(d.emails) == None
    {
      var auto := false;
      if |rows| == 1 {
        assert rows[0] in d.emails.Keys;
        var mail := d.emails[rows[0]];
        if mail.autoTitle != "" {
          auto := d.row.title == mail.autoTitle || d.row.title == mail.datedTitle;
        }
      }
      var context := d.notes != map[] || d.actions != {} || d.replies != {} || d.intelligence != {};
      meaningful := !auto || context || d.row.status != "open" || d.row.priority != "medium" || d.row.revision > 1
        || d.row.description != "" || d.row.assignee != Some(d.emails[rows[0]].createdBy);
    }

    static method NextId(rows: map<Id, Campaign>) returns (next: Id)
      ensures next == NextRow(rows.Keys)
    {
      next := 1;
      var ids := Rows(rows.Keys);
      for i := 0 to |ids|
        invariant next >= 1
        invariant forall k | 0 <= k < i :: ids[k] < next
        invariant next == 1 || next - 1 in ids
      {
        if ids[i] >= next {
          next := ids[i] + 1;
        }
      }
      assert ids[..|ids|] == ids;
      NextRowIsUnique(rows.Keys, next);
    }

    /** False when a note has been copied before. */
    method CopyNotes(d: Dossier, campaign: Id) returns (ok: bool)
      modifies this`notes
      ensures ok <==> forall n | n in d.notes :: n !in old(notes)
      ensures ok ==> notes == old(notes) + Copies(d.notes, Some(campaign))
    {
      var ids := Rows(d.notes.Keys);
      for i := 0 to |ids|
        invariant forall n | n in Seen(ids, i) :: n !in old(notes)
        invariant notes == old(notes) + CopiesOf(d.notes, campaign, Seen(ids, i))
      {
        SeenNext(ids, i);
        assert ids[i] in Seen(ids, |ids|);
        if ids[i] in notes {
          return false;
        }
        CopiesNext(notes, old(notes), d.notes, campaign, Seen(ids, i), ids[i]);
        notes := notes[ids[i] := Copy(campaign, d.notes[ids[i]])];
      }
      CopiesOfAll(d.notes, campaign);
      ok := true;
    }

    /** Puts a row into every campaign, where it is not there yet. */
    static method Linked(table: set<(Id, Id)>, homes: set<Id>, row: Id) returns (after: set<(Id, Id)>)
      ensures after == table + Pairs(homes, {row})
    {
      after := table;
      var ids := Rows(homes);
      for i := 0 to |ids|
        invariant after == table + Pairs(Seen(ids, i), {row})
      {
        SeenNext(ids, i);
        after := after + {(ids[i], row)};
      }
    }

    method LinkMembers(mails: seq<Id>, homes: set<Id>)
      modifies this`members
      ensures members == old(members) + Pairs(homes, Seen(mails, |mails|))
    {
      for i := 0 to |mails|
        invariant members == old(members) + Pairs(homes, Seen(mails, i))
      {
        SeenNext(mails, i);
        PairsNext(homes, Seen(mails, i), mails[i]);
        members := Linked(members, homes, mails[i]);
      }
    }

    method MigrateEvents(d: Dossier, mail: Option<Id>, homes: set<Id>)
      modifies this`eventMail, this`campaignEvents
      ensures eventMail == old(eventMail) + Scoped(d.events, mail)
      ensures campaignEvents == old(campaignEvents) + Pairs(homes, d.events)
    {
      var ids := Rows(d.events);
      for i := 0 to |ids|
        invariant eventMail == old(eventMail) + Scoped(Seen(ids, i), mail)
        invariant campaignEvents == old(campaignEvents) + Pairs(homes, Seen(ids, i))
      {
        SeenNext(ids, i);
        ScopedNext(eventMail, old(eventMail), Seen(ids, i), mail, ids[i]);
        PairsNext(homes, Seen(ids, i), ids[i]);
        if mail.Some? {
          eventMail := eventMail[ids[i] := mail.value];
        }
        campaignEvents := Linked(campaignEvents, homes, ids[i]);
      }
    }

    /** Places what belongs to a meaningful case in its campaign. */
    method PlaceInCampaign(d: Dossier, campaign: Option<Id>) returns (ok: bool)
      modifies this`campaigns, this`notes, this`actions, this`replies, this`intelligence
      ensures ok <==> campaign.None? || forall n | n in d.notes :: n !in old(notes)
      ensures campaigns == if campaign.Some? then old(campaigns)[campaign.value := FromCase(d.row)] else old(campaigns)
      ensures ok ==> notes == old(notes) + Copies(d.notes, campaign)
      ensures ok ==> actions == old(actions) + Scoped(d.actions, campaign)
      ensures ok ==> replies == old(replies) + Scoped(d.replies, campaign)
      ensures ok ==> intelligence == old(intelligence) + Scoped(d.intelligence - old(intelligence).Keys, campaign)
    {
      if campaign.None? {
        assert notes + map[] == notes && actions + map[] == actions;
        assert replies + map[] == replies && intelligence + map[] == intelligence;
        return true;
      }
      campaigns := campaigns[campaign.value := FromCase(d.row)];
      ok := CopyNotes(d, campaign.value);
      if ok {
        actions := actions + Scoped(d.actions, campaign);
        replies := replies + Scoped(d.replies, campaign);
        intelligence := intelligence + Scoped(d.intelligence - intelligence.Keys, campaign);
      }
    }

    /** The statements that place one case, its campaign and its mail being known. */
    method PlaceCase(id: Id, d: Dossier, rows: seq<Id>, campaign: Option<Id>, mail: Option<Id>) returns (ok: bool)
      requires Seen(rows, |rows|) == d.emails.Keys
      modifies this
      ensures legacy == old(legacy)
      ensures ok <==> campaign.None? || forall n | n in d.notes :: n !in old(notes)
      ensures ok ==> Now() == Placed(id, d, old(Now()), campaign, mail)
    {
      ok := PlaceInCampaign(d, campaign);
      if ok {
        links := links[id := Link(campaign, mail)];
        LinkMembers(rows, Homes(d, campaign));
        MigrateEvents(d, mail, Homes(d, campaign));
      }
    }

    method MigrateOne(id: Id) returns (ok: bool)
      requires id in legacy
      modifies this
      ensures legacy == old(legacy)
      ensures MigrateCase(id, legacy[id], old(Now())) == if ok then Some(Now()) else None
    {
      if id in links {
        return true;
      }
      var d := legacy[id];
      var rows := Rows(d.emails.Keys);
      var meaningful := MeaningfulCase(d, rows);
      var mail := if |rows| == 1 then Some(rows[0]) else None;
      var campaign: Option<Id> := None;
      if meaningful {
        var next := NextId(campaigns);
        campaign := Some(next);
      }
      ok := PlaceCase(id, d, rows, campaign, mail);
    }

    method Rollback(p: Projected)
      modifies this
      ensures legacy == old(legacy) && Now() == p
    {
      campaigns, links, notes, members := p.campaigns, p.links, p.notes, p.members;
      actions, replies, intelligence := p.actions, p.replies, p.intelligence;
      eventMail, campaignEvents := p.eventMail, p.campaignEvents;
    }

    /** Rows are restored when any case fails, as rollback does. */
    method MigrateLegacy(order: seq<Id>) returns (ok: bool)
      requires forall id | id in order :: id in legacy
      modifies this
      ensures legacy == old(legacy)
      ensures ok <==> Migrate(legacy, order, old(Now())).Some?
      ensures Now() == if ok then Migrate(legacy, order, old(Now())).value else old(Now())
    {
      var p := Now();
      for i := 0 to |order|
        invariant legacy == old(legacy)
        invariant Migrate(legacy, order[..i], p) == Some(Now())
      {
        FoldNext(MigrateCase, legacy, order, i, p, Now());
        ok := MigrateOne(order[i]);
        if !ok {
          Rollback(p);
          return false;
        }
      }
      assert order[..|order|] == order;
      ok := true;
    }
  }

  /** The ids among the first n rows. */
  function Seen(rows: seq<Id>, n: nat): set<Id>
    requires n <= |rows|
  {
    set r | r in rows[..n]
  }

  lemma SeenMore(rows: seq<Id>, r: Id)
    requires Distinct(rows) && r !in Seen(rows, |rows|)
    ensures Distinct(rows + [r]) && Seen(rows + [r], |rows + [r]|) == Seen(rows, |rows|) + {r}
  {
    assert rows[..|rows|] == rows && (rows + [r])[..|rows + [r]|] == rows + [r];
  }

  lemma SeenNext(rows: seq<Id>, n: nat)
    requires n < |rows|
    ensures Seen(rows, n + 1) == Seen(rows, n) + {rows[n]}
    ensures Distinct(rows) ==> rows[n] !in Seen(rows, n)
  {
    assert rows[..n + 1] == rows[..n] + [rows[n]];
  }

  function CopiesOf(notes: map<Id, Note>, campaign: Id, ids: set<Id>): map<Id, Copy> {
    map n | n in ids && n in notes :: Copy(campaign, notes[n])
  }

  lemma CopiesOfAll(notes: map<Id, Note>, campaign: Id)
    ensures CopiesOf(notes, campaign, notes.Keys) == Copies(notes, Some(campaign))
  {
  }

  lemma CopiesNext(now: map<Id, Copy>, before: map<Id, Copy>, notes: map<Id, Note>, campaign: Id, ids: set<Id>, n: Id)
    requires now == before + CopiesOf(notes, campaign, ids) && n in notes
    ensures now[n := Copy(campaign, notes[n])] == before + CopiesOf(notes, campaign, ids + {n})
  {
  }

  lemma ScopedNext(now: map<Id, Id>, before: map<Id, Id>, rows: set<Id>, scope: Option<Id>, r: Id)
    requires now == before + Scoped(rows, scope)
    ensures scope.Some? ==> now[r := scope.value] == before + Scoped(rows + {r}, scope)
    ensures scope.None? ==> now == before + Scoped(rows + {r}, scope)
  {
  }

  lemma PairsNext(homes: set<Id>, rows: set<Id>, r: Id)
    ensures Pairs(homes, rows + {r}) == Pairs(homes, rows) + Pairs(homes, {r})
  {
  }

  lemma NextRowIsUnique(keys: set<Id>, next: Id)
    requires next >= 1 && (forall k | k in keys :: k < next) && (next == 1 || next - 1 in keys)
    ensures next == NextRow(keys)
  {
  }
}
