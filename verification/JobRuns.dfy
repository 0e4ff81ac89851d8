/** Every interleaving of enqueue, claim, finish, retry, exceptions and crashes, under arbitrary
    clock readings. A worker that dies simply never finishes. */
module JobRuns {
  import opened Common
  import opened EvidenceStore
  import opened JobTables

  datatype Event =
    | Enqueue(upload: Upload)
    | Claim(now: Clock, timeout: int, token: Id)
    | Finish(verdict: Verdict)
    | Retry(analysis: Id, now: Clock)

  /** The tables and files, and every handle a claim has ever returned, oldest first. */
  datatype World = World(store: Store, claims: seq<Handle>)

  /** A claim draws a new token; a worker finishes only what some claim returned to it. */
  ghost predicate Enabled(w: World, e: Event) {
    match e
    case Enqueue(_) => true
    case Claim(_, _, token) => forall h | h in w.claims :: h.token != token
    case Finish(v) => WellFormed(v) && v.handle in w.claims
    case Retry(_, _) => true
  }

  ghost function Step(sha: Bytes -> Digest, w: World, e: Event): World
    requires Enabled(w, e)
  {
    match e
    case Enqueue(u) => World(EnqueueStep(sha, w.store, u).0, w.claims)
    case Claim(now, timeout, token) =>
      var (store, handle) := ClaimStep(w.store, now, timeout, token);
      World(store, if handle.Some? then w.claims + [handle.value] else w.claims)
    case Finish(v) => World(FinishStep(sha, w.store, v).0, w.claims)
    case Retry(a, now) => World(RetryStep(w.store, a, now).0, w.claims)
  }

  ghost predicate IsRun(sha: Bytes -> Digest, ws: seq<World>, es: seq<Event>) {
    && |ws| == |es| + 1
    && ws[0] == World(EMPTY_STORE, [])
    && forall i | 0 <= i < |es| :: Enabled(ws[i], es[i]) && ws[i + 1] == Step(sha, ws[i], es[i])
  }

  /* ---- The invariant ---- */

  ghost predicate JobShape(job: Job) {
    && 1 <= job.maxAttempts <= 10
    && job.attempts <= job.maxAttempts
    && (job.state == Running <==> job.leaseToken.Some?)
    && (job.state == Running <==> job.leaseUntil.Some?)
    && (job.state == Queued ==> job.attempts < job.maxAttempts)
    && (job.state == Running ==> 1 <= job.attempts)
  }

  /** The two tables agree: at most one job per analysis, the same state in both, a result exactly
      when completed. */
  ghost predicate Agreement(s: Store) {
    && Constraints(s)
    && (forall j | j in s.jobs :: JobShape(s.jobs[j]) && s.analyses[s.jobs[j].analysis].status == s.jobs[j].state)
    && (forall a | a in s.analyses :: s.analyses[a].result.Some? <==> s.analyses[a].status == Completed)
  }

  ghost function LatestClaim(claims: seq<Handle>, j: Id): Option<Handle> {
    if claims == [] then None
    else if claims[|claims| - 1].job == j then Some(claims[|claims| - 1])
    else LatestClaim(claims[..|claims| - 1], j)
  }

  /** A running job's token is the one its latest claim drew, and no token was drawn twice. */
  ghost predicate Fenced(w: World) {
    && (forall h | h in w.claims :: h.job in w.store.jobs && w.store.jobs[h.job].analysis == h.analysis)
    && (forall p, q | 0 <= p < q < |w.claims| :: w.claims[p].token != w.claims[q].token)
    && (forall j | j in w.store.jobs && w.store.jobs[j].state == Running ::
          LatestClaim(w.claims, j).Some? && w.store.jobs[j].leaseToken == Some(LatestClaim(w.claims, j).value.token))
  }

  ghost predicate StoredAs(sha: Bytes -> Digest, files: Files, e: Evidence) {
    e.key in files && sha(files[e.key]) == e.sha256 && |files[e.key]| == e.size
  }

  function OriginalOf(a: Analysis): Evidence {
    Evidence(a.sourceRef, a.sha256, a.size)
  }

  /** Every committed reference names a stored file with the recorded digest and size; attachment
      rows exist exactly for the attachments of stored results and agree with them. */
  ghost predicate Backed(sha: Bytes -> Digest, s: Store) {
    && (forall a | a in s.analyses :: StoredAs(sha, s.files, OriginalOf(s.analyses[a])))
    && (forall p | p in s.attachments :: StoredAs(sha, s.files, s.attachments[p]))
    && (forall p | p in s.attachments ::
          && p.analysis in s.analyses && s.analyses[p.analysis].result.Some?
          && p.position < |s.analyses[p.analysis].result.value.attachments|)
    && (forall a, i | a in s.analyses && s.analyses[a].result.Some? && 0 <= i < |s.analyses[a].result.value.attachments| ::
          && Slot(a, i) in s.attachments
          && s.analyses[a].result.value.attachments[i] == Metadata(s.attachments[Slot(a, i)].size, s.attachments[Slot(a, i)].sha256))
  }

  ghost predicate Invariant(sha: Bytes -> Digest, w: World) {
    Agreement(w.store) && Fenced(w) && Backed(sha, w.store)
  }

  /* ---- Each transaction keeps the two tables in agreement ---- */

  lemma UploadKeepsAgreement(sha: Bytes -> Digest, s: Store, u: Upload)
    requires Agreement(s) && Commits(s, u) && !exists j :: Replays(s, u, j)
    ensures Agreement(Uploaded(sha, s, u))
  {
    forall k | k in s.jobs ensures !SameKey(s.jobs[k], NewJob(u)) && !SameKey(NewJob(u), s.jobs[k]) {
      assert !Replays(s, u, k);
    }
  }

  /** Nothing that keeps who a job belongs to can violate a constraint. */
  lemma SameOriginKeepsConstraints(s: Store, t: Store)
    requires Constraints(s) && t.jobs.Keys == s.jobs.Keys && s.analyses.Keys <= t.analyses.Keys
    requires forall j | j in s.jobs :: SameOrigin(s.jobs[j], t.jobs[j])
    ensures Constraints(t)
  {
    forall j, k | j in t.jobs && k in t.jobs && SameKey(t.jobs[j], t.jobs[k]) ensures j == k {
      assert SameOrigin(s.jobs[j], t.jobs[j]) && SameOrigin(s.jobs[k], t.jobs[k]);
      assert SameKey(s.jobs[j], s.jobs[k]);
    }
    forall j, k | j in t.jobs && k in t.jobs && t.jobs[j].analysis == t.jobs[k].analysis ensures j == k {
      assert SameOrigin(s.jobs[j], t.jobs[j]) && SameOrigin(s.jobs[k], t.jobs[k]);
    }
  }

  lemma RecoveredRowAgrees(s: Store, now: Clock, j: Id)
    requires Agreement(s) && j in s.jobs
    ensures var t := RecoverStep(s, now);
      JobShape(t.jobs[j]) && t.analyses[s.jobs[j].analysis].status == t.jobs[j].state
  {
    RecoveredStatusOfJob(s, now, j);
  }

  lemma RecoveredResultAgrees(s: Store, now: Clock, a: Id)
    requires Agreement(s) && a in s.analyses
    ensures var row := RecoverStep(s, now).analyses[a];
      row.result.Some? <==> row.status == Completed
  {
    var js := ReleasedJobsOf(s.jobs, ExpiredJobs(s.jobs, now), a);
    if js != {} {
      assert PickOne(js) in js;
    }
  }

  lemma RecoverKeepsAgreement(s: Store, now: Clock)
    requires Agreement(s)
    ensures Agreement(RecoverStep(s, now))
  {
    SameOriginKeepsConstraints(s, RecoverStep(s, now));
    forall j | j in s.jobs { RecoveredRowAgrees(s, now, j); }
    forall a | a in s.analyses { RecoveredResultAgrees(s, now, a); }
  }

  lemma LeaseKeepsAgreement(s: Store, j: Id, now: Clock, timeout: int, token: Id)
    requires Agreement(s) && j in s.jobs && s.jobs[j].state == Queued
    ensures Agreement(WithLease(s, j, now, timeout, token))
  {
    UpdateKeepsAgreement(s, WithLease(s, j, now, timeout, token), j);
  }

  /** The rest of the agreement, once the constraints are settled. */
  ghost predicate RowsAgree(s: Store)
    requires Constraints(s)
  {
    && (forall j | j in s.jobs :: JobShape(s.jobs[j]) && s.analyses[s.jobs[j].analysis].status == s.jobs[j].state)
    && (forall a | a in s.analyses :: s.analyses[a].result.Some? <==> s.analyses[a].status == Completed)
  }

  /** Updating one job and the status of its own analysis keeps the agreement. */
  lemma UpdateKeepsAgreement(s: Store, t: Store, j: Id)
    requires Agreement(s) && j in s.jobs && t.jobs.Keys == s.jobs.Keys
    requires forall k | k in s.jobs && k != j :: t.jobs[k] == s.jobs[k]
    requires JobShape(t.jobs[j]) && SameOrigin(s.jobs[j], t.jobs[j])
    requires t.analyses.Keys == s.analyses.Keys
    requires forall a | a in s.analyses && a != s.jobs[j].analysis :: t.analyses[a] == s.analyses[a]
    requires t.analyses[s.jobs[j].analysis].status == t.jobs[j].state
    requires t.analyses[s.jobs[j].analysis].result.Some? <==> t.jobs[j].state == Completed
    ensures Agreement(t)
  {
    forall k | k in s.jobs ensures SameOrigin(s.jobs[k], t.jobs[k]) {
    }
    SameOriginKeepsConstraints(s, t);
    UpdateKeepsRows(s, t, j);
  }

  lemma UpdateKeepsRows(s: Store, t: Store, j: Id)
    requires Constraints(s) && Constraints(t) && RowsAgree(s) && j in s.jobs && t.jobs.Keys == s.jobs.Keys
    requires forall k | k in s.jobs && k != j :: t.jobs[k] == s.jobs[k]
    requires JobShape(t.jobs[j]) && t.jobs[j].analysis == s.jobs[j].analysis && t.analyses.Keys == s.analyses.Keys
    requires forall a | a in s.analyses && a != s.jobs[j].analysis :: t.analyses[a] == s.analyses[a]
    requires t.analyses[s.jobs[j].analysis].status == t.jobs[j].state
    requires t.analyses[s.jobs[j].analysis].result.Some? <==> t.jobs[j].state == Completed
    ensures RowsAgree(t)
  {
  }

  lemma RetryKeepsRows(s: Store, a: Id, now: Clock)
    requires Agreement(s) && Constraints(RetryStep(s, a, now).0)
    ensures RowsAgree(RetryStep(s, a, now).0)
  {
  }

  lemma RetryKeepsAgreement(s: Store, a: Id, now: Clock)
    requires Agreement(s)
    ensures Agreement(RetryStep(s, a, now).0)
  {
    RetryEffect(s, a, now);
    SameOriginKeepsConstraints(s, RetryStep(s, a, now).0);
    RetryKeepsRows(s, a, now);
  }

  /* ---- Fencing ---- */

  lemma LeaseKeepsFence(s: Store, claims: seq<Handle>, j: Id, now: Clock, timeout: int, token: Id)
    requires Fenced(World(s, claims)) && j in s.jobs
    requires forall h | h in claims :: h.token != token
    ensures Fenced(World(WithLease(s, j, now, timeout, token), claims + [Handle(j, s.jobs[j].analysis, token)]))
  {
    var t := WithLease(s, j, now, timeout, token);
    var more := claims + [Handle(j, s.jobs[j].analysis, token)];
    assert more[..|more| - 1] == claims;
  }

  lemma RecoverKeepsFence(s: Store, claims: seq<Handle>, now: Clock)
    requires Fenced(World(s, claims))
    ensures Fenced(World(RecoverStep(s, now), claims))
  {
    var t := RecoverStep(s, now);
    forall j | j in t.jobs && t.jobs[j].state == Running
      ensures LatestClaim(claims, j).Some? && t.jobs[j].leaseToken == Some(LatestClaim(claims, j).value.token)
    {
      assert s.jobs[j].state == Running;
    }
  }

  lemma RetryKeepsFence(s: Store, claims: seq<Handle>, a: Id, now: Clock)
    requires Fenced(World(s, claims))
    ensures Fenced(World(RetryStep(s, a, now).0, claims))
  {
    var t := RetryStep(s, a, now).0;
    forall j | j in t.jobs && t.jobs[j].state == Running ensures t.jobs[j] == s.jobs[j] {}
  }

  /** Changing jobs other than by claiming them keeps the fence, if nothing starts to run. */
  lemma OthersKeepFence(s: Store, t: Store, claims: seq<Handle>)
    requires Fenced(World(s, claims))
    requires forall j | j in s.jobs :: j in t.jobs && t.jobs[j].analysis == s.jobs[j].analysis
    requires forall j | j in t.jobs && t.jobs[j].state == Running :: j in s.jobs && t.jobs[j] == s.jobs[j]
    ensures Fenced(World(t, claims))
  {
  }

  /* ---- Evidence ---- */

  /** A store whose files only grow, and whose results and attachment rows are unchanged, stays backed. */
  lemma GrowingFilesStayBacked(sha: Bytes -> Digest, s: Store, t: Store)
    requires Backed(sha, s)
    requires forall k | k in s.files :: k in t.files && t.files[k] == s.files[k]
    requires t.attachments == s.attachments && t.analyses.Keys == s.analyses.Keys
    requires forall a | a in s.analyses ::
      OriginalOf(t.analyses[a]) == OriginalOf(s.analyses[a]) && t.analyses[a].result == s.analyses[a].result
    ensures Backed(sha, t)
  {
    forall p | p in t.attachments ensures StoredAs(sha, t.files, t.attachments[p]) {
      assert StoredAs(sha, s.files, s.attachments[p]);
    }
    forall a | a in t.analyses ensures StoredAs(sha, t.files, OriginalOf(t.analyses[a])) {
      assert StoredAs(sha, s.files, OriginalOf(s.analyses[a]));
    }
  }

  lemma UploadKeepsBacked(sha: Bytes -> Digest, s: Store, u: Upload)
    requires Backed(sha, s) && Commits(s, u)
    ensures Backed(sha, Uploaded(sha, s, u))
  {
    var t := Uploaded(sha, s, u);
    var early := s.(files := t.files);
    GrowingFilesStayBacked(sha, s, early);
    forall a | a in t.analyses ensures StoredAs(sha, t.files, OriginalOf(t.analyses[a])) {
      if a != u.analysisId { assert StoredAs(sha, early.files, OriginalOf(early.analyses[a])); }
    }
    forall p | p in t.attachments
      ensures p.analysis in t.analyses && t.analyses[p.analysis].result.Some?
        && p.position < |t.analyses[p.analysis].result.value.attachments|
    {
      assert p.analysis in early.analyses;
    }
  }

  /** The rows of the other analyses are backed by a store whose files have only grown. */
  lemma CompletionKeepsRowsBacked(sha: Bytes -> Digest, s: Store, h: Handle, subject: string,
                                  contents: seq<Option<Bytes>>, keys: seq<Id>)
    requires Backed(sha, s) && h.job in s.jobs && h.analysis in s.analyses && |contents| <= |keys|
    requires Writable(s.files, contents, keys, |contents|)
    ensures var t := CompletedStore(sha, s, h, subject, contents, keys);
      && (forall p | p in t.attachments :: StoredAs(sha, t.files, t.attachments[p]))
      && (forall a | a in t.analyses :: StoredAs(sha, t.files, OriginalOf(t.analyses[a])))
  {
    var n := |contents|;
    var t := CompletedStore(sha, s, h, subject, contents, keys);
    WrittenExactly(s.files, contents, keys, n);
    AttachmentRowsExactly(sha, s.attachments, h.analysis, contents, keys, n);
    forall p | p in t.attachments ensures StoredAs(sha, t.files, t.attachments[p]) {
      if p.analysis == h.analysis && p.position < n {
        assert t.attachments[p] == AttachmentRow(sha, contents, keys, p.position);
      } else {
        assert t.attachments[p] == s.attachments[p] && StoredAs(sha, s.files, s.attachments[p]);
      }
    }
    forall a | a in t.analyses ensures StoredAs(sha, t.files, OriginalOf(t.analyses[a])) {
      assert StoredAs(sha, s.files, OriginalOf(s.analyses[a]));
    }
  }

  /** One attachment row per attachment of every stored result, and no other. */
  lemma CompletionKeepsSlots(sha: Bytes -> Digest, s: Store, h: Handle, subject: string,
                             contents: seq<Option<Bytes>>, keys: seq<Id>)
    requires Backed(sha, s) && h.job in s.jobs && h.analysis in s.analyses && |contents| <= |keys|
    requires s.analyses[h.analysis].result.None? && Writable(s.files, contents, keys, |contents|)
    ensures var t := CompletedStore(sha, s, h, subject, contents, keys);
      && (forall p | p in t.attachments ::
            && p.analysis in t.analyses && t.analyses[p.analysis].result.Some?
            && p.position < |t.analyses[p.analysis].result.value.attachments|)
      && (forall a, i | a in t.analyses && t.analyses[a].result.Some? && 0 <= i < |t.analyses[a].result.value.attachments| ::
            && Slot(a, i) in t.attachments
            && t.analyses[a].result.value.attachments[i] == Metadata(t.attachments[Slot(a, i)].size, t.attachments[Slot(a, i)].sha256))
  {
    AttachmentRowsExactly(sha, s.attachments, h.analysis, contents, keys, |contents|);
  }

  lemma CompletionKeepsBacked(sha: Bytes -> Digest, s: Store, h: Handle, subject: string,
                              contents: seq<Option<Bytes>>, keys: seq<Id>)
    requires Backed(sha, s) && h.job in s.jobs && h.analysis in s.analyses && |contents| <= |keys|
    requires s.analyses[h.analysis].result.None?
    requires Writable(s.files, contents, keys, |contents|)
    ensures Backed(sha, CompletedStore(sha, s, h, subject, contents, keys))
  {
    CompletionKeepsRowsBacked(sha, s, h, subject, contents, keys);
    CompletionKeepsSlots(sha, s, h, subject, contents, keys);
  }

  /* ---- Every step keeps the whole invariant ---- */

  lemma UploadKeepsFence(sha: Bytes -> Digest, s: Store, claims: seq<Handle>, u: Upload)
    requires Fenced(World(s, claims)) && Commits(s, u)
    ensures Fenced(World(Uploaded(sha, s, u), claims))
  {
    OthersKeepFence(s, Uploaded(sha, s, u), claims);
  }

  lemma EnqueueKeepsInvariant(sha: Bytes -> Digest, w: World, u: Upload)
    requires Invariant(sha, w)
    ensures Invariant(sha, World(EnqueueStep(sha, w.store, u).0, w.claims))
  {
    var s, t := w.store, EnqueueStep(sha, w.store, u).0;
    EnqueueAllOrNothing(sha, s, u);
    if t == Uploaded(sha, s, u) && Commits(s, u) && !exists j :: Replays(s, u, j) {
      UploadKeepsAgreement(sha, s, u);
      UploadKeepsFence(sha, s, w.claims, u);
      UploadKeepsBacked(sha, s, u);
    } else {
      UncommittedKeepsInvariant(sha, w, t);
    }
  }

  lemma RecoverKeepsInvariant(sha: Bytes -> Digest, w: World, now: Clock)
    requires Invariant(sha, w)
    ensures Invariant(sha, World(RecoverStep(w.store, now), w.claims))
  {
    RecoverKeepsAgreement(w.store, now);
    RecoverKeepsFence(w.store, w.claims, now);
    GrowingFilesStayBacked(sha, w.store, RecoverStep(w.store, now));
  }

  lemma LeaseKeepsInvariant(sha: Bytes -> Digest, w: World, j: Id, now: Clock, timeout: int, token: Id)
    requires Invariant(sha, w) && forall h | h in w.claims :: h.token != token
    requires j in w.store.jobs && w.store.jobs[j].state == Queued
    ensures Invariant(sha, World(WithLease(w.store, j, now, timeout, token),
                                 w.claims + [Handle(j, w.store.jobs[j].analysis, token)]))
  {
    LeaseKeepsAgreement(w.store, j, now, timeout, token);
    LeaseKeepsFence(w.store, w.claims, j, now, timeout, token);
    GrowingFilesStayBacked(sha, w.store, WithLease(w.store, j, now, timeout, token));
  }

  lemma ClaimKeepsInvariant(sha: Bytes -> Digest, w: World, now: Clock, timeout: int, token: Id)
    requires Invariant(sha, w) && forall h | h in w.claims :: h.token != token
    ensures Invariant(sha, Step(sha, w, Claim(now, timeout, token)))
  {
    var r := RecoverStep(w.store, now);
    RecoverKeepsInvariant(sha, w, now);
    match Next(r.jobs, now)
    case None =>
    case Some(j) =>
      NextIsOldestReady(r.jobs, now);
      LeaseKeepsInvariant(sha, World(r, w.claims), j, now, timeout, token);
  }

  /** What a worker holds is its own job and that job's analysis. */
  ghost predicate Holder(s: Store, h: Handle) {
    && h.job in s.jobs && s.jobs[h.job].state == Running
    && s.jobs[h.job].analysis == h.analysis && h.analysis in s.analyses
  }

  lemma HolderHasRows(sha: Bytes -> Digest, w: World, h: Handle, now: Clock)
    requires Invariant(sha, w) && h in w.claims && Holds(w.store, h, now)
    ensures Holder(w.store, h) && w.store.analyses[h.analysis].result.None?
  {
  }

  lemma FailureKeepsAgreement(s: Store, h: Handle, now: Clock)
    requires Agreement(s) && Holder(s, h)
    ensures Agreement(FailedStore(s, h, now))
  {
    UpdateKeepsAgreement(s, FailedStore(s, h, now), h.job);
  }

  lemma FailureKeepsFence(s: Store, claims: seq<Handle>, h: Handle, now: Clock)
    requires Fenced(World(s, claims)) && Holder(s, h)
    ensures Fenced(World(FailedStore(s, h, now), claims))
  {
    OthersKeepFence(s, FailedStore(s, h, now), claims);
  }

  lemma FailureKeepsBacked(sha: Bytes -> Digest, s: Store, h: Handle, now: Clock)
    requires Backed(sha, s) && Holder(s, h)
    ensures Backed(sha, FailedStore(s, h, now))
  {
    GrowingFilesStayBacked(sha, s, FailedStore(s, h, now));
  }

  lemma FailureKeepsInvariant(sha: Bytes -> Digest, w: World, h: Handle, now: Clock)
    requires Invariant(sha, w) && Holder(w.store, h)
    ensures Invariant(sha, World(FailedStore(w.store, h, now), w.claims))
  {
    FailureKeepsAgreement(w.store, h, now);
    FailureKeepsFence(w.store, w.claims, h, now);
    FailureKeepsBacked(sha, w.store, h, now);
  }

  lemma CompletionKeepsAgreement(sha: Bytes -> Digest, s: Store, h: Handle, subject: string,
                                 contents: seq<Option<Bytes>>, keys: seq<Id>)
    requires Agreement(s) && Holder(s, h) && |contents| <= |keys| && Writable(s.files, contents, keys, |contents|)
    ensures Agreement(CompletedStore(sha, s, h, subject, contents, keys))
  {
    UpdateKeepsAgreement(s, CompletedStore(sha, s, h, subject, contents, keys), h.job);
  }

  lemma CompletionKeepsFence(sha: Bytes -> Digest, s: Store, claims: seq<Handle>, h: Handle, subject: string,
                             contents: seq<Option<Bytes>>, keys: seq<Id>)
    requires Fenced(World(s, claims)) && Holder(s, h)
    requires |contents| <= |keys| && Writable(s.files, contents, keys, |contents|)
    ensures Fenced(World(CompletedStore(sha, s, h, subject, contents, keys), claims))
  {
    OthersKeepFence(s, CompletedStore(sha, s, h, subject, contents, keys), claims);
  }

  lemma CompletionKeepsInvariant(sha: Bytes -> Digest, w: World, h: Handle, subject: string,
                                 contents: seq<Option<Bytes>>, keys: seq<Id>)
    requires Invariant(sha, w) && Holder(w.store, h) && w.store.analyses[h.analysis].result.None?
    requires |contents| <= |keys| && Writable(w.store.files, contents, keys, |contents|)
    ensures Invariant(sha, World(CompletedStore(sha, w.store, h, subject, contents, keys), w.claims))
  {
    CompletionKeepsAgreement(sha, w.store, h, subject, contents, keys);
    CompletionKeepsFence(sha, w.store, w.claims, h, subject, contents, keys);
    CompletionKeepsBacked(sha, w.store, h, subject, contents, keys);
  }

  /** A verdict that is refused or aborted leaves the tables, and every existing file, as they were. */
  lemma UncommittedKeepsInvariant(sha: Bytes -> Digest, w: World, t: Store)
    requires Invariant(sha, w) && t == w.store.(files := t.files)
    requires forall k | k in w.store.files :: k in t.files && t.files[k] == w.store.files[k]
    ensures Invariant(sha, World(t, w.claims))
  {
    GrowingFilesStayBacked(sha, w.store, t);
  }

  lemma CommittedFailureKeepsInvariant(sha: Bytes -> Digest, w: World, v: Verdict)
    requires Invariant(sha, w) && WellFormed(v) && v.handle in w.claims && v.payload.Failure?
    requires FinishStep(sha, w.store, v).1 == Returned(true)
    ensures Invariant(sha, World(FinishStep(sha, w.store, v).0, w.claims))
  {
    HolderHasRows(sha, w, v.handle, v.now);
    FailureKeepsInvariant(sha, w, v.handle, v.now);
  }

  lemma CommittedDocumentKeepsInvariant(sha: Bytes -> Digest, w: World, v: Verdict)
    requires Invariant(sha, w) && WellFormed(v) && v.handle in w.claims && v.payload.Document?
    requires FinishStep(sha, w.store, v).1 == Returned(true)
    ensures Invariant(sha, World(FinishStep(sha, w.store, v).0, w.claims))
  {
    HolderHasRows(sha, w, v.handle, v.now);
    CompletionKeepsInvariant(sha, w, v.handle, v.payload.subject, v.payload.attachments, v.payload.keys);
  }

  lemma FinishKeepsInvariant(sha: Bytes -> Digest, w: World, v: Verdict)
    requires Invariant(sha, w) && WellFormed(v) && v.handle in w.claims
    ensures Invariant(sha, World(FinishStep(sha, w.store, v).0, w.claims))
  {
    if FinishStep(sha, w.store, v).1 != Returned(true) {
      FinishAllOrNothing(sha, w.store, v);
      UncommittedKeepsInvariant(sha, w, FinishStep(sha, w.store, v).0);
    } else if v.payload.Failure? {
      CommittedFailureKeepsInvariant(sha, w, v);
    } else {
      CommittedDocumentKeepsInvariant(sha, w, v);
    }
  }

  lemma RetryKeepsInvariant(sha: Bytes -> Digest, w: World, a: Id, now: Clock)
    requires Invariant(sha, w)
    ensures Invariant(sha, World(RetryStep(w.store, a, now).0, w.claims))
  {
    var (t, outcome) := RetryStep(w.store, a, now);
    RetryEffect(w.store, a, now);
    if outcome.Returned? {
      RetryKeepsAgreement(w.store, a, now);
      RetryKeepsFence(w.store, w.claims, a, now);
      GrowingFilesStayBacked(sha, w.store, t);
    }
  }

  lemma StepKeepsInvariant(sha: Bytes -> Digest, w: World, e: Event)
    requires Invariant(sha, w) && Enabled(w, e)
    ensures Invariant(sha, Step(sha, w, e))
  {
    match e
    case Enqueue(u) => EnqueueKeepsInvariant(sha, w, u);
    case Claim(now, timeout, token) => ClaimKeepsInvariant(sha, w, now, timeout, token);
    case Finish(v) => FinishKeepsInvariant(sha, w, v);
    case Retry(a, now) => RetryKeepsInvariant(sha, w, a, now);
  }

  /** In every state of every run: the tables agree, leases are fenced and evidence is backed. */
  lemma {:induction false} InvariantHolds(sha: Bytes -> Digest, ws: seq<World>, es: seq<Event>, i: nat)
    requires IsRun(sha, ws, es) && i < |ws|
    ensures Invariant(sha, ws[i])
  {
    if i > 0 {
      InvariantHolds(sha, ws, es, i - 1);
      StepKeepsInvariant(sha, ws[i - 1], es[i - 1]);
    }
  }
}
