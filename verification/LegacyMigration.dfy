/** Projection of legacy cases onto campaigns (backend/investigation/collections.py): one case at a time,
    inside one transaction, never touching the legacy rows themselves. */
module LegacyMigration {
  import opened Common

  datatype Case = Case(
    title: string, description: string, status: string, priority: string, revision: nat,
    assignee: Option<Id>, createdBy: Id, createdAt: string, updatedAt: string)

  /** `datedTitle` is the default title made of the date and the subject or file name. */
  datatype Email = Email(createdBy: Id, autoTitle: string, datedTitle: string)

  datatype Note = Note(author: Id, body: string, createdAt: string)

  /** Everything the queries for one case find. `replies`: those of the case that name no mail. */
  datatype Dossier = Dossier(
    row: Case, emails: map<Id, Email>, notes: map<Id, Note>, homes: set<Id>,
    actions: set<Id>, replies: set<Id>, intelligence: set<Id>, events: set<Id>)

  /** The legacy tables, read case by case. */
  type Legacy = map<Id, Dossier>

  datatype Campaign = Campaign(
    name: string, description: string, status: string, priority: string, revision: nat,
    assignee: Option<Id>, createdBy: Id, createdAt: string, updatedAt: string)

  datatype Link = Link(campaign: Option<Id>, mail: Option<Id>)

  datatype Copy = Copy(campaign: Id, note: Note)

  /** What the migration writes. `notes` is keyed by the unique column legacy_note_id; the maps of actions,
      replies, intelligence and events hold the scope column of the rows that have one. */
  datatype Projected = Projected(
    campaigns: map<Id, Campaign>, links: map<Id, Link>, notes: map<Id, Copy>, members: set<(Id, Id)>,
    actions: map<Id, Id>, replies: map<Id, Id>, intelligence: map<Id, Id>,
    eventMail: map<Id, Id>, campaignEvents: set<(Id, Id)>)

  function FromCase(c: Case): Campaign {
    Campaign(c.title, c.description, if c.status == "open" then "active" else c.status, c.priority, c.revision,
             c.assignee, c.createdBy, c.createdAt, c.updatedAt)
  }

  ghost function Sole(emails: map<Id, Email>): (mail: Option<Id>)
    ensures mail.Some? <==> |emails.Keys| == 1
    ensures mail.Some? ==> emails.Keys == {mail.value}
  {
    if |emails.Keys| == 1 then
      var m :| m in emails.Keys;
      SingletonKeys(emails.Keys, m);
      Some(m)
    else None
  }

  lemma SingletonKeys(keys: set<Id>, m: Id)
    requires m in keys && |keys| == 1
    ensures keys == {m}
  {
    assert |keys - {m}| == 0;
  }

  /** The title is one the system gave: the case holds one mail and nobody renamed it. */
  ghost predicate Automatic(d: Dossier) {
    Sole(d.emails).Some? &&
    var mail := d.emails[Sole(d.emails).value];
    mail.autoTitle != "" && (d.row.title == mail.autoTitle || d.row.title == mail.datedTitle)
  }

  /** An analyst did something with the case. The assignee is compared only where the mail exists. */
  ghost predicate Meaningful(d: Dossier) {
    || !Automatic(d)
    || d.notes != map[] || d.actions != {} || d.replies != {} || d.intelligence != {}
    || d.row.status != "open" || d.row.priority != "medium" || d.row.revision > 1 || d.row.description != ""
    || d.row.assignee != Some(d.emails[Sole(d.emails).value].createdBy)
  }

  /** The id SQLite gives the next row. */
  ghost function NextRow(keys: set<Id>): (next: Id)
    ensures next >= 1 && forall k | k in keys :: k < next
    ensures next == 1 || next - 1 in keys
    decreases |keys|
  {
    if keys == {} then 1
    else
      var k :| k in keys;
      var rest := NextRow(keys - {k});
      assert keys == (keys - {k}) + {k};
      if k + 1 > rest then k + 1 else rest
  }

  function Pairs(homes: set<Id>, things: set<Id>): set<(Id, Id)> {
    set h, t | h in homes && t in things :: (h, t)
  }

  function Homes(d: Dossier, campaign: Option<Id>): set<Id> {
    d.homes + if campaign.Some? then {campaign.value} else {}
  }

  function Copies(notes: map<Id, Note>, campaign: Option<Id>): map<Id, Copy> {
    if campaign.None? then map[] else map n | n in notes :: Copy(campaign.value, notes[n])
  }

  function Scoped(rows: set<Id>, scope: Option<Id>): map<Id, Id> {
    if scope.None? then map[] else map r | r in rows :: scope.value
  }

  ghost function CampaignFor(d: Dossier, p: Projected): Option<Id> {
    if Meaningful(d) then Some(NextRow(p.campaigns.Keys)) else None
  }

  /** The tables once the case has its campaign, if any, and its mail, if it has just one. */
  function Placed(id: Id, d: Dossier, p: Projected, campaign: Option<Id>, mail: Option<Id>): Projected {
    Projected(
      if campaign.Some? then p.campaigns[campaign.value := FromCase(d.row)] else p.campaigns,
      p.links[id := Link(campaign, mail)],
      p.notes + Copies(d.notes, campaign),
      p.members + Pairs(Homes(d, campaign), d.emails.Keys),
      p.actions + Scoped(d.actions, campaign),
      p.replies + Scoped(d.replies, campaign),
      p.intelligence + Scoped(d.intelligence - p.intelligence.Keys, campaign),
      p.eventMail + Scoped(d.events, mail),
      p.campaignEvents + Pairs(Homes(d, campaign), d.events))
  }

  ghost function Moved(id: Id, d: Dossier, p: Projected): Projected {
    Placed(id, d, p, CampaignFor(d, p), Sole(d.emails))
  }

  /** Copying a note a second time violates the unique column. */
  ghost predicate Collides(d: Dossier, p: Projected) {
    Meaningful(d) && exists n :: n in d.notes && n in p.notes
  }

  ghost function MigrateCase(id: Id, d: Dossier, p: Projected): Option<Projected> {
    if id in p.links then Some(p) else if Collides(d, p) then None else Some(Moved(id, d, p))
  }

  lemma CaseIsPlacedOrSkipped(id: Id, d: Dossier, p: Projected, q: Projected) returns (campaign: Option<Id>, mail: Option<Id>)
    requires MigrateCase(id, d, p) == Some(q)
    ensures if id in p.links then q == p else q == Placed(id, d, p, campaign, mail)
  {
    campaign, mail := CampaignFor(d, p), Sole(d.emails);
  }

  /** A transaction that handles the cases in the given order; None when it is rolled back. */
  ghost function Fold<D, P>(step: (Id, D, P) -> Option<P>, l: map<Id, D>, ids: seq<Id>, p: P): Option<P>
    requires forall id | id in ids :: id in l
  {
    if ids == [] then Some(p)
    else
      var q := step(ids[0], l[ids[0]], p);
      if q.None? then None else Fold(step, l, ids[1..], q.value)
  }

  ghost function Migrate(l: Legacy, ids: seq<Id>, p: Projected): Option<Projected>
    requires forall id | id in ids :: id in l
  {
    Fold(MigrateCase, l, ids, p)
  }

  lemma {:induction false} FoldSplits<D, P>(step: (Id, D, P) -> Option<P>, l: map<Id, D>, a: seq<Id>, b: seq<Id>, p: P)
    requires forall id | id in a + b :: id in l
    ensures (forall id | id in a :: id in l) && forall id | id in b :: id in l
    ensures var q := Fold(step, l, a, p);
      Fold(step, l, a + b, p) == if q.None? then None else Fold(step, l, b, q.value)
  {
    forall id | id in a || id in b ensures id in l {
      assert id in a + b;
    }
    if a == [] {
      assert a + b == b;
    } else {
      assert (a + b)[1..] == a[1..] + b;
      var q := step(a[0], l[a[0]], p);
      if q.Some? {
        FoldSplits(step, l, a[1..], b, q.value);
      }
    }
  }

  /** One more case. */
  lemma FoldNext<D, P>(step: (Id, D, P) -> Option<P>, l: map<Id, D>, ids: seq<Id>, i: nat, p: P, q: P)
    requires (forall id | id in ids :: id in l) && i < |ids| && Fold(step, l, ids[..i], p) == Some(q)
    ensures Fold(step, l, ids[..i + 1], p) == step(ids[i], l[ids[i]], q)
    ensures step(ids[i], l[ids[i]], q) == None ==> Fold(step, l, ids, p) == None
  {
    assert ids[..i + 1] == ids[..i] + [ids[i]] && [ids[i]][1..] == [];
    FoldSplits(step, l, ids[..i], [ids[i]], p);
    assert ids == ids[..i + 1] + ids[i + 1..];
    FoldSplits(step, l, ids[..i + 1], ids[i + 1..], p);
  }

  lemma {:induction false} FoldReadsItsCases<D, P>(step: (Id, D, P) -> Option<P>, l: map<Id, D>, k: map<Id, D>, ids: seq<Id>, p: P)
    requires forall id | id in ids :: id in l && id in k && l[id] == k[id]
    ensures Fold(step, l, ids, p) == Fold(step, k, ids, p)
  {
    if ids != [] {
      var q := step(ids[0], l[ids[0]], p);
      if q.Some? {
        FoldReadsItsCases(step, l, k, ids[1..], q.value);
      }
    }
  }

  /* ---- What a migration amounts to ---- */

  lemma PlacedIsLinked(id: Id, d: Dossier, p: Projected, campaign: Option<Id>, mail: Option<Id>)
    ensures var q := Placed(id, d, p, campaign, mail);
      && (forall i :: i in q.links <==> i in p.links || i == id)
      && (id !in p.links ==> forall i | i in p.links :: q.links[i] == p.links[i])
      && (forall n | n in q.notes :: n in p.notes || n in d.notes)
  {
  }

  lemma CaseIsLinked(id: Id, d: Dossier, p: Projected, q: Projected)
    requires MigrateCase(id, d, p) == Some(q)
    ensures forall i :: i in q.links <==> i in p.links || i == id
    ensures forall i | i in p.links :: q.links[i] == p.links[i]
    ensures forall n | n in q.notes :: n in p.notes || n in d.notes
  {
    var campaign, mail := CaseIsPlacedOrSkipped(id, d, p, q);
    PlacedIsLinked(id, d, p, campaign, mail);
  }

  /** Existing campaigns and notes survive the migration of a case. */
  lemma CaseKeepsRows(id: Id, d: Dossier, p: Projected, q: Projected)
    requires MigrateCase(id, d, p) == Some(q)
    ensures forall c | c in p.campaigns :: c in q.campaigns && q.campaigns[c] == p.campaigns[c]
    ensures forall n | n in p.notes :: n in q.notes && q.notes[n] == p.notes[n]
  {
    if id !in p.links && Meaningful(d) {
      assert !Collides(d, p);
    }
  }

  lemma {:induction false} LinksAreKept(l: Legacy, ids: seq<Id>, p: Projected, q: Projected)
    requires (forall id | id in ids :: id in l) && Migrate(l, ids, p) == Some(q)
    ensures forall id | id in p.links :: id in q.links && q.links[id] == p.links[id]
    ensures forall id :: id in q.links <==> id in p.links || id in ids
  {
    if ids != [] {
      var p1 := MigrateCase(ids[0], l[ids[0]], p).value;
      CaseIsLinked(ids[0], l[ids[0]], p, p1);
      LinksAreKept(l, ids[1..], p1, q);
    }
  }

  predicate Distinct(ids: seq<Id>) {
    forall i, j | 0 <= i < j < |ids| :: ids[i] != ids[j]
  }

  /** The cases this migration links. */
  predicate Newly(ids: seq<Id>, p: Projected, id: Id) {
    id in ids && id !in p.links
  }

  lemma NewlySplits(l: Legacy, ids: seq<Id>, p: Projected, p1: Projected, id: Id)
    requires (forall i | i in ids :: i in l) && ids != [] && Distinct(ids) && MigrateCase(ids[0], l[ids[0]], p) == Some(p1)
    ensures Distinct(ids[1..])
    ensures Newly(ids, p, id) <==> Newly(ids[1..], p1, id) || (id == ids[0] && id !in p.links)
  {
  }

  /** What became of one case. */
  ghost predicate CaseMoved(d: Dossier, link: Link, p: Projected, q: Projected) {
    && link.mail == Sole(d.emails)
    && (link.campaign.Some? <==> Meaningful(d))
    && (link.campaign.Some? ==>
          && link.campaign.value !in p.campaigns && link.campaign.value in q.campaigns
          && q.campaigns[link.campaign.value] == FromCase(d.row)
          && forall n | n in d.notes :: n !in p.notes && n in q.notes && q.notes[n] == Copy(link.campaign.value, d.notes[n]))
  }

  lemma UnlinkedCaseMoves(id: Id, d: Dossier, p: Projected, q: Projected)
    requires id !in p.links && MigrateCase(id, d, p) == Some(q)
    ensures id in q.links && CaseMoved(d, q.links[id], p, q)
  {
    if Meaningful(d) {
      forall n | n in d.notes ensures n !in p.notes && n in q.notes && q.notes[n] == Copy(q.links[id].campaign.value, d.notes[n]) {
        assert !Collides(d, p);
      }
    }
  }

  lemma {:induction false} RowsAreKept(l: Legacy, ids: seq<Id>, p: Projected, q: Projected)
    requires (forall id | id in ids :: id in l) && Migrate(l, ids, p) == Some(q)
    ensures forall c | c in p.campaigns :: c in q.campaigns && q.campaigns[c] == p.campaigns[c]
    ensures forall n | n in p.notes :: n in q.notes && q.notes[n] == p.notes[n]
  {
    if ids != [] {
      var p1 := MigrateCase(ids[0], l[ids[0]], p).value;
      CaseKeepsRows(ids[0], l[ids[0]], p, p1);
      RowsAreKept(l, ids[1..], p1, q);
    }
  }

  /** Each case has exactly one link afterwards; a meaningful one a campaign of its own with a copy of every note. */
  lemma {:induction false} EachCaseMoved(l: Legacy, ids: seq<Id>, p: Projected, q: Projected, id: Id)
    requires (forall i | i in ids :: i in l) && Distinct(ids) && Migrate(l, ids, p) == Some(q) && Newly(ids, p, id)
    ensures id in q.links && CaseMoved(l[id], q.links[id], p, q)
  {
    var p1 := MigrateCase(ids[0], l[ids[0]], p).value;
    NewlySplits(l, ids, p, p1, id);
    LinksAreKept(l, ids[1..], p1, q);
    RowsAreKept(l, ids[1..], p1, q);
    if id != ids[0] {
      CaseKeepsRows(ids[0], l[ids[0]], p, p1);
      EachCaseMoved(l, ids[1..], p1, q, id);
    } else {
      UnlinkedCaseMoves(id, l[id], p, p1);
    }
  }

  /** The case is the one the system made for a single mail: its title is a given one, and its owner is whoever sent
      the mail in. */
  ghost predicate MadeForMail(d: Dossier, m: Id) {
    && d.emails.Keys == {m}
    && var mail := d.emails[m];
    mail.autoTitle != "" && (d.row.title == mail.autoTitle || d.row.title == mail.datedTitle) && d.row.assignee == Some(mail.createdBy)
  }

  lemma SoleMail(d: Dossier, m: Id)
    ensures Sole(d.emails) == Some(m) <==> d.emails.Keys == {m}
    ensures Sole(d.emails).None? ==> d.emails.Keys != {m}
  {
    if d.emails.Keys == {m} {
      assert |d.emails.Keys| == 1;
      assert Sole(d.emails).value in {m};
    }
  }

  /** Where a case goes, read off its rows: to a campaign with its data exactly if it has a note, an action, a reply of
      its own or intelligence, if anything but the defaults was set, or if the system did not make it for one mail; and
      onto its mail if there is just one. */
  lemma WhereCasesGo(l: Legacy, ids: seq<Id>, p: Projected, q: Projected, id: Id, m: Id)
    requires (forall i | i in ids :: i in l) && Distinct(ids) && Migrate(l, ids, p) == Some(q) && Newly(ids, p, id)
    ensures id in q.links
    ensures var d, link := l[id], q.links[id];
      && (link.campaign.Some? <==>
            || d.notes != map[] || d.actions != {} || d.replies != {} || d.intelligence != {}
            || d.row.status != "open" || d.row.priority != "medium" || d.row.revision > 1 || d.row.description != ""
            || forall k :: !MadeForMail(d, k))
      && (link.campaign.Some? ==>
            && link.campaign.value in q.campaigns
            && q.campaigns[link.campaign.value] ==
               Campaign(d.row.title, d.row.description, if d.row.status == "open" then "active" else d.row.status, d.row.priority,
                        d.row.revision, d.row.assignee, d.row.createdBy, d.row.createdAt, d.row.updatedAt))
      && (link.mail == Some(m) <==> d.emails.Keys == {m})
  {
    EachCaseMoved(l, ids, p, q, id);
    SoleMail(l[id], m);
    MeaningfulReasons(l[id]);
  }

  lemma MeaningfulReasons(d: Dossier)
    ensures Meaningful(d) <==>
      || d.notes != map[] || d.actions != {} || d.replies != {} || d.intelligence != {}
      || d.row.status != "open" || d.row.priority != "medium" || d.row.revision > 1 || d.row.description != ""
      || forall k :: !MadeForMail(d, k)
  {
    if k :| MadeForMail(d, k) {
      SoleMail(d, k);
    } else if Automatic(d) && d.row.assignee == Some(d.emails[Sole(d.emails).value].createdBy) {
      assert MadeForMail(d, Sole(d.emails).value);
    }
  }

  /** No two cases share a campaign. */
  lemma {:induction false} CampaignsAreDistinct(l: Legacy, ids: seq<Id>, p: Projected, q: Projected, a: Id, b: Id)
    requires (forall i | i in ids :: i in l) && Distinct(ids) && Migrate(l, ids, p) == Some(q)
    requires Newly(ids, p, a) && Newly(ids, p, b) && a != b
    ensures a in q.links && b in q.links
    ensures q.links[a].campaign.Some? ==> q.links[a].campaign != q.links[b].campaign
  {
    var p1 := MigrateCase(ids[0], l[ids[0]], p).value;
    NewlySplits(l, ids, p, p1, a);
    NewlySplits(l, ids, p, p1, b);
    LinksAreKept(l, ids[1..], p1, q);
    if a == ids[0] {
      EachCaseMoved(l, ids[1..], p1, q, b);
    } else if b == ids[0] {
      EachCaseMoved(l, ids[1..], p1, q, a);
    } else {
      CampaignsAreDistinct(l, ids[1..], p1, q, a, b);
    }
  }

  /** Case `id` was migrated and puts its mail m into campaign c, its own or one it was attached to before. */
  predicate Gives(l: Legacy, q: Projected, id: Id, c: Id, m: Id) {
    id in l && id in q.links && (c in l[id].homes || q.links[id].campaign == Some(c)) && m in l[id].emails
  }

  predicate Shows(l: Legacy, q: Projected, id: Id, c: Id, e: Id) {
    id in l && id in q.links && (c in l[id].homes || q.links[id].campaign == Some(c)) && e in l[id].events
  }

  /** What migrating one case does to memberships and shown events. */
  lemma CaseGives(l: Legacy, id: Id, p: Projected, q: Projected, c: Id, x: Id)
    requires id in l && MigrateCase(id, l[id], p) == Some(q)
    ensures (c, x) in q.members <==> (c, x) in p.members || (id !in p.links && Gives(l, q, id, c, x))
    ensures (c, x) in q.campaignEvents <==> (c, x) in p.campaignEvents || (id !in p.links && Shows(l, q, id, c, x))
  {
    var campaign, mail := CaseIsPlacedOrSkipped(id, l[id], p, q);
  }

  /** A mail is a member of exactly the campaigns it was in before and all campaigns of its case. */
  lemma {:induction false} MembersAreThoseOfTheCases(l: Legacy, ids: seq<Id>, p: Projected, q: Projected, c: Id, m: Id)
    requires (forall i | i in ids :: i in l) && Distinct(ids) && Migrate(l, ids, p) == Some(q)
    ensures (c, m) in q.members <==> (c, m) in p.members || exists id :: Newly(ids, p, id) && Gives(l, q, id, c, m)
  {
    if ids != [] {
      var first := ids[0];
      var p1 := MigrateCase(first, l[first], p).value;
      LinksAreKept(l, ids[1..], p1, q);
      forall id ensures Newly(ids, p, id) <==> Newly(ids[1..], p1, id) || (id == first && id !in p.links) {
        NewlySplits(l, ids, p, p1, id);
      }
      CaseGives(l, first, p, p1, c, m);
      assert first !in p.links ==> Newly(ids, p, first) && (Gives(l, p1, first, c, m) <==> Gives(l, q, first, c, m));
      MembersAreThoseOfTheCases(l, ids[1..], p1, q, c, m);
    }
  }

  /** An event is shown in exactly the campaigns it was in before and all campaigns of its case. */
  lemma {:induction false} EventsAreThoseOfTheCases(l: Legacy, ids: seq<Id>, p: Projected, q: Projected, c: Id, e: Id)
    requires (forall i | i in ids :: i in l) && Distinct(ids) && Migrate(l, ids, p) == Some(q)
    ensures (c, e) in q.campaignEvents <==> (c, e) in p.campaignEvents || exists id :: Newly(ids, p, id) && Shows(l, q, id, c, e)
  {
    if ids != [] {
      var first := ids[0];
      var p1 := MigrateCase(first, l[first], p).value;
      LinksAreKept(l, ids[1..], p1, q);
      forall id ensures Newly(ids, p, id) <==> Newly(ids[1..], p1, id) || (id == first && id !in p.links) {
        NewlySplits(l, ids, p, p1, id);
      }
      CaseGives(l, first, p, p1, c, e);
      assert first !in p.links ==> Newly(ids, p, first) && (Shows(l, p1, first, c, e) <==> Shows(l, q, first, c, e));
      EventsAreThoseOfTheCases(l, ids[1..], p1, q, c, e);
    }
  }

  /** Only notes of newly linked meaningful cases are copied. */
  lemma {:induction false} CopiedNotesBelongToCases(l: Legacy, ids: seq<Id>, p: Projected, q: Projected, n: Id)
    requires (forall i | i in ids :: i in l) && Distinct(ids) && Migrate(l, ids, p) == Some(q)
    requires n in q.notes && n !in p.notes
    ensures exists id :: Newly(ids, p, id) && id in l && n in l[id].notes && Meaningful(l[id])
  {
    var p1 := MigrateCase(ids[0], l[ids[0]], p).value;
    if n in p1.notes {
      assert Newly(ids, p, ids[0]) && n in l[ids[0]].notes;
    } else {
      CopiedNotesBelongToCases(l, ids[1..], p1, q, n);
      var id :| Newly(ids[1..], p1, id) && id in l && n in l[id].notes && Meaningful(l[id]);
      NewlySplits(l, ids, p, p1, id);
    }
  }

  /* ---- Running it again, and running it in two parts ---- */

  lemma {:induction false} LinkedCasesAreSkipped(l: Legacy, ids: seq<Id>, p: Projected)
    requires (forall id | id in ids :: id in l) && forall id | id in ids :: id in p.links
    ensures Migrate(l, ids, p) == Some(p)
  {
    if ids != [] {
      LinkedCasesAreSkipped(l, ids[1..], p);
    }
  }

  /** A second migration changes nothing. */
  lemma MigrationIsIdempotent(l: Legacy, ids: seq<Id>, p: Projected, q: Projected)
    requires (forall id | id in ids :: id in l) && Migrate(l, ids, p) == Some(q)
    ensures Migrate(l, ids, q) == Some(q)
  {
    LinksAreKept(l, ids, p, q);
    LinkedCasesAreSkipped(l, ids, q);
  }

  /** Cases a, migrated while the others did not even exist, and everything migrated again once they do: the
      same as migrating everything at once. */
  lemma InPartsEqualsAtOnce(early: Legacy, l: Legacy, a: seq<Id>, b: seq<Id>, p: Projected, q: Projected)
    requires (forall id | id in a + b :: id in l) && forall id | id in a :: id in early && early[id] == l[id]
    requires Migrate(early, a, p) == Some(q)
    ensures Migrate(l, a + b, q) == Migrate(l, a + b, p)
  {
    FoldSplits(MigrateCase, l, a, b, p);
    FoldSplits(MigrateCase, l, a, b, q);
    FoldReadsItsCases(MigrateCase, early, l, a, p);
    MigrationIsIdempotent(l, a, p, q);
  }

  /* ---- It is never rolled back ---- */

  /** Only notes of linked cases have been copied, and no note belongs to two cases. */
  ghost predicate Consistent(l: Legacy, p: Projected) {
    && (forall id, n | id in l && n in l[id].notes && n in p.notes :: id in p.links)
    && (forall a, b, n | a in l && b in l && n in l[a].notes && n in l[b].notes :: a == b)
  }

  lemma CaseKeepsConsistent(l: Legacy, id: Id, p: Projected)
    requires Consistent(l, p) && id in l
    ensures MigrateCase(id, l[id], p).Some? && Consistent(l, MigrateCase(id, l[id], p).value)
  {
    if id !in p.links {
      assert !Collides(l[id], p);
    }
    var q := MigrateCase(id, l[id], p).value;
    CaseIsLinked(id, l[id], p, q);
    forall i, n | i in l && n in l[i].notes && n in q.notes ensures i in q.links {
      assert n in p.notes || n in l[id].notes;
    }
  }

  /** From consistent tables the unique column is never violated. */
  lemma {:induction false} MigrationSucceeds(l: Legacy, ids: seq<Id>, p: Projected)
    requires (forall id | id in ids :: id in l) && Consistent(l, p)
    ensures Migrate(l, ids, p).Some? && Consistent(l, Migrate(l, ids, p).value)
  {
    if ids != [] {
      CaseKeepsConsistent(l, ids[0], p);
      MigrationSucceeds(l, ids[1..], MigrateCase(ids[0], l[ids[0]], p).value);
    }
  }

  /* ---- Scopes of actions, replies, intelligence and events ---- */

  predicate SameAt(before: map<Id, Id>, after: map<Id, Id>, r: Id) {
    (r in before <==> r in after) && (r in before ==> before[r] == after[r])
  }

  lemma PlacedKeepsForeignRows(id: Id, d: Dossier, p: Projected, campaign: Option<Id>, mail: Option<Id>, r: Id)
    ensures var q := Placed(id, d, p, campaign, mail);
      && (r !in d.actions ==> SameAt(p.actions, q.actions, r))
      && (r !in d.replies ==> SameAt(p.replies, q.replies, r))
      && (r !in d.intelligence || r in p.intelligence ==> SameAt(p.intelligence, q.intelligence, r))
      && (r !in d.events ==> SameAt(p.eventMail, q.eventMail, r))
  {
  }

  /** Ids of different tables are unrelated, so the four statements are kept apart. */
  lemma CaseKeepsForeignRows(id: Id, d: Dossier, p: Projected, q: Projected, r: Id)
    requires MigrateCase(id, d, p) == Some(q)
    ensures r !in d.actions ==> SameAt(p.actions, q.actions, r)
    ensures r !in d.replies ==> SameAt(p.replies, q.replies, r)
    ensures r !in d.intelligence || r in p.intelligence ==> SameAt(p.intelligence, q.intelligence, r)
    ensures r !in d.events ==> SameAt(p.eventMail, q.eventMail, r)
  {
    var campaign, mail := CaseIsPlacedOrSkipped(id, d, p, q);
    PlacedKeepsForeignRows(id, d, p, campaign, mail, r);
  }

  /** A row of the case carries the scope afterwards, or what it carried before when there is none. */
  predicate Follows(rows: set<Id>, scope: Option<Id>, before: map<Id, Id>, after: map<Id, Id>, r: Id) {
    r in rows ==> if scope.Some? then r in after && after[r] == scope.value else SameAt(before, after, r)
  }

  lemma FollowsThrough(rows: set<Id>, scope: Option<Id>, a: map<Id, Id>, b: map<Id, Id>, c: map<Id, Id>, r: Id)
    ensures (r in rows ==> SameAt(a, b, r)) && Follows(rows, scope, b, c, r) ==> Follows(rows, scope, a, c, r)
    ensures Follows(rows, scope, a, b, r) && (r in rows ==> SameAt(b, c, r)) ==> Follows(rows, scope, a, c, r)
  {
  }

  /** An action, reply or unplaced piece of intelligence r of a case is placed in the case's campaign; an
      event of a case with one mail is placed on that mail. */
  predicate ScopesMoved(d: Dossier, link: Link, p: Projected, q: Projected, r: Id) {
    && Follows(d.actions, link.campaign, p.actions, q.actions, r)
    && Follows(d.replies, link.campaign, p.replies, q.replies, r)
    && Follows(d.intelligence - p.intelligence.Keys, link.campaign, p.intelligence, q.intelligence, r)
    && Follows(d.events, link.mail, p.eventMail, q.eventMail, r)
  }

  lemma PlacedScopesRows(id: Id, d: Dossier, p: Projected, campaign: Option<Id>, mail: Option<Id>, r: Id)
    ensures ScopesMoved(d, Link(campaign, mail), p, Placed(id, d, p, campaign, mail), r)
  {
  }

  lemma CaseScopesItsRows(id: Id, d: Dossier, p: Projected, q: Projected, r: Id)
    requires id !in p.links && MigrateCase(id, d, p) == Some(q)
    ensures id in q.links && ScopesMoved(d, q.links[id], p, q, r)
  {
    PlacedScopesRows(id, d, p, CampaignFor(d, p), Sole(d.emails), r);
  }

  /** As far as r is a row of the case, its scope did not change. */
  predicate RowKept(d: Dossier, p: Projected, q: Projected, r: Id) {
    && (r in d.actions ==> SameAt(p.actions, q.actions, r))
    && (r in d.replies ==> SameAt(p.replies, q.replies, r))
    && (r in d.intelligence ==> SameAt(p.intelligence, q.intelligence, r))
    && (r in d.events ==> SameAt(p.eventMail, q.eventMail, r))
  }

  lemma ScopesThrough(d: Dossier, link: Link, p: Projected, p1: Projected, q: Projected, r: Id)
    requires (RowKept(d, p, p1, r) && ScopesMoved(d, link, p1, q, r)) || (ScopesMoved(d, link, p, p1, r) && RowKept(d, p1, q, r))
    ensures ScopesMoved(d, link, p, q, r)
  {
    FollowsThrough(d.actions, link.campaign, p.actions, p1.actions, q.actions, r);
    FollowsThrough(d.replies, link.campaign, p.replies, p1.replies, q.replies, r);
    FollowsThrough(d.intelligence - p.intelligence.Keys, link.campaign, p.intelligence, p1.intelligence, q.intelligence, r);
    FollowsThrough(d.events, link.mail, p.eventMail, p1.eventMail, q.eventMail, r);
  }

  /** A row belongs to one case: r, taken as an id of each of the four tables, is shared by no two cases. */
  predicate Apart(a: Dossier, b: Dossier, r: Id) {
    && !(r in a.actions && r in b.actions) && !(r in a.replies && r in b.replies)
    && !(r in a.intelligence && r in b.intelligence) && !(r in a.events && r in b.events)
  }

  predicate OwnRow(l: Legacy, ids: seq<Id>, id: Id, r: Id)
    requires (forall i | i in ids :: i in l) && id in l
  {
    forall i | i in ids && i != id :: Apart(l[i], l[id], r)
  }

  /** Rows of no case keep their scope. */
  lemma {:induction false} ForeignRowsAreKept(l: Legacy, ids: seq<Id>, p: Projected, q: Projected, r: Id)
    requires (forall i | i in ids :: i in l) && Migrate(l, ids, p) == Some(q)
    ensures (forall i | i in ids :: r !in l[i].actions) ==> SameAt(p.actions, q.actions, r)
    ensures (forall i | i in ids :: r !in l[i].replies) ==> SameAt(p.replies, q.replies, r)
    ensures (forall i | i in ids :: r !in l[i].intelligence) || r in p.intelligence ==> SameAt(p.intelligence, q.intelligence, r)
    ensures (forall i | i in ids :: r !in l[i].events) ==> SameAt(p.eventMail, q.eventMail, r)
  {
    if ids != [] {
      var p1 := MigrateCase(ids[0], l[ids[0]], p).value;
      CaseKeepsForeignRows(ids[0], l[ids[0]], p, p1, r);
      ForeignRowsAreKept(l, ids[1..], p1, q, r);
    }
  }

  /** Migrating other cases leaves a case's rows alone. */
  lemma OtherCasesLeaveRow(l: Legacy, ids: seq<Id>, p: Projected, q: Projected, id: Id, r: Id)
    requires (forall i | i in ids :: i in l) && Migrate(l, ids, p) == Some(q)
    requires id !in ids && id in l && OwnRow(l, ids, id, r)
    ensures RowKept(l[id], p, q, r)
  {
    forall i | i in ids ensures Apart(l[i], l[id], r) {
    }
    ForeignRowsAreKept(l, ids, p, q, r);
  }

  lemma OtherCaseLeavesRow(id: Id, d: Dossier, p: Projected, q: Projected, own: Dossier, r: Id)
    requires MigrateCase(id, d, p) == Some(q) && Apart(d, own, r)
    ensures RowKept(own, p, q, r)
  {
    CaseKeepsForeignRows(id, d, p, q, r);
  }

  /** The rows of a newly linked case end where the case went. */
  lemma {:induction false} RowsFollowTheirCase(l: Legacy, ids: seq<Id>, p: Projected, q: Projected, id: Id, r: Id)
    requires (forall i | i in ids :: i in l) && Distinct(ids) && Migrate(l, ids, p) == Some(q) && Newly(ids, p, id)
    requires OwnRow(l, ids, id, r)
    ensures id in q.links && ScopesMoved(l[id], q.links[id], p, q, r)
  {
    var p1 := MigrateCase(ids[0], l[ids[0]], p).value;
    NewlySplits(l, ids, p, p1, id);
    LinksAreKept(l, ids[1..], p1, q);
    if id == ids[0] {
      CaseScopesItsRows(id, l[id], p, p1, r);
      OtherCasesLeaveRow(l, ids[1..], p1, q, id, r);
      ScopesThrough(l[id], p1.links[id], p, p1, q, r);
    } else {
      assert Apart(l[ids[0]], l[id], r);
      OtherCaseLeavesRow(ids[0], l[ids[0]], p, p1, l[id], r);
      RowsFollowTheirCase(l, ids[1..], p1, q, id, r);
      ScopesThrough(l[id], q.links[id], p, p1, q, r);
    }
  }
}
