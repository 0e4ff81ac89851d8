/** What holds over whole runs of the queue. */
module JobTheorems {
  import opened Common
  import opened EvidenceStore
  import opened JobTables
  import opened JobRuns

  /* ---- Fenced results ---- */

  function ResultOf(w: World, a: Id): Option<Report> {
    if a in w.store.analyses then w.store.analyses[a].result else None
  }

  /** Event i changes the stored result of an analysis. */
  ghost predicate WritesResult(ws: seq<World>, i: nat, a: Id)
    requires i + 1 < |ws|
  {
    ResultOf(ws[i], a) != ResultOf(ws[i + 1], a)
  }

  /** Event i is a claim that returned this handle. */
  ghost predicate Claims(ws: seq<World>, i: nat, h: Handle)
    requires i + 1 < |ws|
  {
    ws[i + 1].claims == ws[i].claims + [h]
  }

  /** Before event i, the job of h was last claimed by event c, which returned h. */
  ghost predicate ClaimedLast(ws: seq<World>, es: seq<Event>, c: int, i: nat, h: Handle)
    requires i < |ws| == |es| + 1
  {
    && 0 <= c < i && es[c].Claim? && Claims(ws, c, h)
    && forall d, g | c < d < i && Claims(ws, d, g) :: g.job != h.job
  }

  lemma {:induction false} LatestClaimIsAClaim(claims: seq<Handle>, j: Id)
    ensures LatestClaim(claims, j).Some? ==>
      LatestClaim(claims, j).value in claims && LatestClaim(claims, j).value.job == j
    ensures LatestClaim(claims, j).None? ==> forall h | h in claims :: h.job != j
  {
    if claims != [] {
      LatestClaimIsAClaim(claims[..|claims| - 1], j);
      assert claims == claims[..|claims| - 1] + [claims[|claims| - 1]];
    }
  }

  lemma {:induction false} LatestClaimIsLast(claims: seq<Handle>, q: nat)
    requires q < |claims|
    ensures exists p :: q <= p < |claims| && LatestClaim(claims, claims[q].job) == Some(claims[p])
  {
    var last := |claims| - 1;
    if claims[last].job == claims[q].job {
      assert LatestClaim(claims, claims[q].job) == Some(claims[last]);
    } else {
      LatestClaimIsLast(claims[..last], q);
      var p :| q <= p < last && LatestClaim(claims[..last], claims[q].job) == Some(claims[..last][p]);
      assert claims[..last][p] == claims[p];
    }
  }

  /** A worker whose job has been claimed again gets False and changes nothing: no table, no file. */
  lemma StaleFinishChangesNothing(sha: Bytes -> Digest, w: World, v: Verdict, p: nat, q: nat)
    requires Invariant(sha, w) && Enabled(w, Finish(v))
    requires p < q < |w.claims| && w.claims[p] == v.handle && w.claims[q].job == v.handle.job
    ensures FinishStep(sha, w.store, v) == (w.store, Returned(false))
  {
    LatestClaimIsLast(w.claims, q);
    var r :| q <= r < |w.claims| && LatestClaim(w.claims, v.handle.job) == Some(w.claims[r]);
    assert w.claims[r].token != w.claims[p].token;
  }

  /** Uploads, claims and retries leave every result as it is. */
  lemma OthersWriteNothing(sha: Bytes -> Digest, w: World, e: Event, a: Id)
    requires Invariant(sha, w) && Enabled(w, e) && !e.Finish?
    ensures ResultOf(Step(sha, w, e), a) == ResultOf(w, a)
  {
    match e
    case Enqueue(u) => EnqueueAllOrNothing(sha, w.store, u);
    case Claim(now, timeout, token) => ClaimEffect(w.store, now, timeout, token);
    case Retry(b, now) => RetryEffect(w.store, b, now);
  }

  /** A finish writes the result of its own analysis, or none. */
  lemma FinishWritesItsOwn(sha: Bytes -> Digest, s: Store, v: Verdict, a: Id)
    requires WellFormed(v) && a in s.analyses
    ensures var (t, outcome) := FinishStep(sha, s, v);
      a in t.analyses && (t.analyses[a].result != s.analyses[a].result ==>
        outcome == Returned(true) && Holds(s, v.handle, v.now) && a == v.handle.analysis)
  {
    FinishEffect(sha, s, v);
  }

  /** The only writer of a result is a finish with a document, by the holder of the job's latest
      claim, and what it stores is the document with every attachment replaced by its digest. */
  lemma OnlyLatestHolderWrites(sha: Bytes -> Digest, w: World, e: Event, a: Id)
    requires Invariant(sha, w) && Enabled(w, e)
    requires ResultOf(w, a) != ResultOf(Step(sha, w, e), a)
    ensures e.Finish? && e.verdict.payload.Document? && e.verdict.handle.analysis == a
    ensures LatestClaim(w.claims, e.verdict.handle.job) == Some(e.verdict.handle)
    ensures ResultOf(w, a).None? && AllDecode(e.verdict.payload.attachments)
    ensures ResultOf(Step(sha, w, e), a) ==
      Some(StoredReport(sha, e.verdict.payload.subject, e.verdict.payload.attachments))
  {
    if !e.Finish? {
      OthersWriteNothing(sha, w, e, a);
    } else {
      FinishEffect(sha, w.store, e.verdict);
      FinishWritesItsOwn(sha, w.store, e.verdict, a);
      HolderIsLatest(sha, w, e.verdict);
      FinishWrites(sha, w, e.verdict);
    }
  }

  lemma FinishWrites(sha: Bytes -> Digest, w: World, v: Verdict)
    requires Invariant(sha, w) && Enabled(w, Finish(v)) && FinishStep(sha, w.store, v).1 == Returned(true)
    requires ResultOf(w, v.handle.analysis) != ResultOf(World(FinishStep(sha, w.store, v).0, w.claims), v.handle.analysis)
    ensures v.payload.Document? && AllDecode(v.payload.attachments) && ResultOf(w, v.handle.analysis).None?
    ensures FinishStep(sha, w.store, v).0.analyses[v.handle.analysis].result
      == Some(StoredReport(sha, v.payload.subject, v.payload.attachments))
  {
    assert w.store.analyses[v.handle.analysis].status == Running;
  }

  lemma HolderIsLatest(sha: Bytes -> Digest, w: World, v: Verdict)
    requires Invariant(sha, w) && Enabled(w, Finish(v)) && Holds(w.store, v.handle, v.now)
    ensures LatestClaim(w.claims, v.handle.job) == Some(v.handle)
  {
    LatestClaimIsAClaim(w.claims, v.handle.job);
    var latest := LatestClaim(w.claims, v.handle.job).value;
    var p :| 0 <= p < |w.claims| && w.claims[p] == v.handle;
    var q :| 0 <= q < |w.claims| && w.claims[q] == latest;
    assert p == q;
  }

  /** The rows of a completed analysis: its own row, its attachment rows, and every stored byte. */
  ghost predicate SameEvidence(s: Store, t: Store, a: Id) {
    && a in s.analyses && a in t.analyses && t.analyses[a] == s.analyses[a]
    && (forall p: Slot | p.analysis == a :: p in s.attachments <==> p in t.attachments)
    && (forall p: Slot | p.analysis == a && p in s.attachments ::
          t.attachments[p] == s.attachments[p] && Unmoved(s, t, s.attachments[p].key))
    && Unmoved(s, t, s.analyses[a].sourceRef)
  }

  ghost predicate Unmoved(s: Store, t: Store, key: Id) {
    key in s.files && key in t.files && t.files[key] == s.files[key]
  }

  lemma CompletionKeepsOthers(sha: Bytes -> Digest, s: Store, h: Handle, subject: string,
                              contents: seq<Option<Bytes>>, keys: seq<Id>, a: Id)
    requires Backed(sha, s) && h.job in s.jobs && h.analysis in s.analyses && a in s.analyses && a != h.analysis
    requires |contents| <= |keys| && Writable(s.files, contents, keys, |contents|)
    ensures SameEvidence(s, CompletedStore(sha, s, h, subject, contents, keys), a)
  {
    WrittenExactly(s.files, contents, keys, |contents|);
    AttachmentRowsExactly(sha, s.attachments, h.analysis, contents, keys, |contents|);
    assert StoredAs(sha, s.files, OriginalOf(s.analyses[a]));
    forall p | p in s.attachments ensures s.attachments[p].key in s.files {
      assert StoredAs(sha, s.files, s.attachments[p]);
    }
  }

  /** Growing the files and leaving one analysis and all attachment rows alone keeps its evidence. */
  lemma UntouchedEvidence(sha: Bytes -> Digest, s: Store, t: Store, a: Id)
    requires Backed(sha, s) && a in s.analyses && a in t.analyses && t.analyses[a] == s.analyses[a]
    requires t.attachments == s.attachments
    requires forall k | k in s.files :: k in t.files && t.files[k] == s.files[k]
    ensures SameEvidence(s, t, a)
  {
    assert StoredAs(sha, s.files, OriginalOf(s.analyses[a]));
    forall p | p in s.attachments ensures s.attachments[p].key in s.files {
      assert StoredAs(sha, s.files, s.attachments[p]);
    }
  }

  lemma CompletedStepTerminal(sha: Bytes -> Digest, w: World, e: Event, a: Id)
    requires Invariant(sha, w) && Enabled(w, e) && a in w.store.analyses && w.store.analyses[a].status == Completed
    ensures SameEvidence(w.store, Step(sha, w, e).store, a)
  {
    var s, t := w.store, Step(sha, w, e).store;
    match e
    case Enqueue(u) => EnqueueAllOrNothing(sha, s, u); UntouchedEvidence(sha, s, t, a);
    case Claim(now, timeout, token) =>
      ClaimEffect(s, now, timeout, token);
      ClaimSparesCompleted(s, now, timeout, token, a);
      UntouchedEvidence(sha, s, t, a);
    case Retry(b, now) => UntouchedEvidence(sha, s, t, a);
    case Finish(v) => FinishSparesCompleted(sha, w, v, a);
  }

  /** The analysis a worker may finish is running, so it is not a completed one. */
  lemma CompletedIsNotHeld(sha: Bytes -> Digest, w: World, v: Verdict, a: Id)
    requires Invariant(sha, w) && v.handle in w.claims && Holds(w.store, v.handle, v.now)
    requires a in w.store.analyses && w.store.analyses[a].status == Completed
    ensures a != v.handle.analysis
  {
    HolderHasRows(sha, w, v.handle, v.now);
  }

  lemma FailureSparesOthers(sha: Bytes -> Digest, s: Store, h: Handle, now: Clock, a: Id)
    requires Backed(sha, s) && h.job in s.jobs && h.analysis in s.analyses && a in s.analyses && a != h.analysis
    ensures SameEvidence(s, FailedStore(s, h, now), a)
  {
    UntouchedEvidence(sha, s, FailedStore(s, h, now), a);
  }

  lemma CommitSparesCompleted(sha: Bytes -> Digest, w: World, v: Verdict, a: Id)
    requires Invariant(sha, w) && Enabled(w, Finish(v)) && a in w.store.analyses && w.store.analyses[a].status == Completed
    requires FinishStep(sha, w.store, v).1 == Returned(true)
    ensures SameEvidence(w.store, FinishStep(sha, w.store, v).0, a)
  {
    CompletedIsNotHeld(sha, w, v, a);
    match v.payload
    case Failure(_) => FailureSparesOthers(sha, w.store, v.handle, v.now, a);
    case Document(subject, contents, keys) => CompletionKeepsOthers(sha, w.store, v.handle, subject, contents, keys, a);
  }

  lemma FinishSparesCompleted(sha: Bytes -> Digest, w: World, v: Verdict, a: Id)
    requires Invariant(sha, w) && Enabled(w, Finish(v)) && a in w.store.analyses && w.store.analyses[a].status == Completed
    ensures SameEvidence(w.store, FinishStep(sha, w.store, v).0, a)
  {
    if FinishStep(sha, w.store, v).1 == Returned(true) {
      CommitSparesCompleted(sha, w, v, a);
    } else {
      FinishAllOrNothing(sha, w.store, v);
      UntouchedEvidence(sha, w.store, FinishStep(sha, w.store, v).0, a);
    }
  }

  lemma ClaimSparesCompleted(s: Store, now: Clock, timeout: int, token: Id, a: Id)
    requires Agreement(s) && a in s.analyses && s.analyses[a].status == Completed
    ensures ClaimStep(s, now, timeout, token).0.analyses[a] == s.analyses[a]
  {
    var r := RecoverStep(s, now);
    NextIsOldestReady(r.jobs, now);
    forall j | j in s.jobs && s.jobs[j].analysis == a ensures s.jobs[j].state == Completed {}
    assert r.analyses[a] == s.analyses[a];
  }

  lemma SameEvidenceTransitive(s: Store, t: Store, u: Store, a: Id)
    requires SameEvidence(s, t, a) && SameEvidence(t, u, a)
    ensures SameEvidence(s, u, a)
  {
    forall p: Slot | p.analysis == a && p in s.attachments
      ensures u.attachments[p] == s.attachments[p] && Unmoved(s, u, s.attachments[p].key)
    {
      assert p in t.attachments;
    }
  }

  lemma {:induction false} SameEvidenceAlong(ws: seq<World>, i: nat, k: nat, a: Id)
    requires i <= k < |ws| && SameEvidence(ws[i].store, ws[i].store, a) && ws[i].store.analyses[a].status == Completed
    requires forall n | i <= n < k && a in ws[n].store.analyses && ws[n].store.analyses[a].status == Completed ::
      SameEvidence(ws[n].store, ws[n + 1].store, a)
    ensures SameEvidence(ws[i].store, ws[k].store, a)
  {
    if i < k {
      SameEvidenceAlong(ws, i, k - 1, a);
      SameEvidenceTransitive(ws[i].store, ws[k - 1].store, ws[k].store, a);
    }
  }

  /** Completed is terminal: from then on the row, its attachments and all their bytes never change. */
  lemma CompletedIsTerminal(sha: Bytes -> Digest, ws: seq<World>, es: seq<Event>, i: nat, k: nat, a: Id)
    requires IsRun(sha, ws, es) && i <= k < |ws|
    requires a in ws[i].store.analyses && ws[i].store.analyses[a].status == Completed
    ensures SameEvidence(ws[i].store, ws[k].store, a)
  {
    InvariantHolds(sha, ws, es, i);
    UntouchedEvidence(sha, ws[i].store, ws[i].store, a);
    forall n | i <= n < k && a in ws[n].store.analyses && ws[n].store.analyses[a].status == Completed
      ensures SameEvidence(ws[n].store, ws[n + 1].store, a)
    {
      InvariantHolds(sha, ws, es, n);
      CompletedStepTerminal(sha, ws[n], es[n], a);
    }
    SameEvidenceAlong(ws, i, k, a);
  }

  /** A result is written at most once in any run. */
  lemma ResultWrittenOnce(sha: Bytes -> Digest, ws: seq<World>, es: seq<Event>, i: nat, k: nat, a: Id)
    requires IsRun(sha, ws, es) && i < k < |es| && WritesResult(ws, i, a)
    ensures !WritesResult(ws, k, a)
  {
    InvariantHolds(sha, ws, es, i);
    InvariantHolds(sha, ws, es, i + 1);
    OnlyLatestHolderWrites(sha, ws[i], es[i], a);
    CompletedIsTerminal(sha, ws, es, i + 1, k, a);
    CompletedIsTerminal(sha, ws, es, i + 1, k + 1, a);
  }

  /** The history of claims is the history of claim events. */
  lemma {:induction false} LatestClaimIsAnEvent(sha: Bytes -> Digest, ws: seq<World>, es: seq<Event>, i: nat, h: Handle)
    requires IsRun(sha, ws, es) && i < |ws| && LatestClaim(ws[i].claims, h.job) == Some(h)
    ensures exists c :: ClaimedLast(ws, es, c, i, h)
  {
    if i > 0 {
      var before := ws[i - 1].claims;
      if ws[i].claims != before {
        assert ws[i].claims[..|before|] == before;
      }
      if ws[i].claims != before && ws[i].claims[|before|].job == h.job {
        assert ClaimedLast(ws, es, i - 1, i, h);
      } else {
        LatestClaimIsAnEvent(sha, ws, es, i - 1, h);
        var c :| ClaimedLast(ws, es, c, i - 1, h);
        forall d, g | c < d < i && Claims(ws, d, g) ensures g.job != h.job {
          if d == i - 1 { assert ws[i].claims[|before|] == g; }
        }
        assert ClaimedLast(ws, es, c, i, h);
      }
    }
  }

  /** Whoever writes a result does so under the claim event that most recently took the job. */
  lemma WriterClaimedLast(sha: Bytes -> Digest, ws: seq<World>, es: seq<Event>, i: nat, a: Id)
    requires IsRun(sha, ws, es) && i < |es| && WritesResult(ws, i, a)
    ensures es[i].Finish? && es[i].verdict.handle.analysis == a
    ensures exists c :: ClaimedLast(ws, es, c, i, es[i].verdict.handle)
  {
    InvariantHolds(sha, ws, es, i);
    OnlyLatestHolderWrites(sha, ws[i], es[i], a);
    LatestClaimIsAnEvent(sha, ws, es, i, es[i].verdict.handle);
  }

  /* ---- Bounded attempts ---- */

  function CountClaims(claims: seq<Handle>, j: Id): nat {
    if claims == [] then 0
    else CountClaims(claims[..|claims| - 1], j) + if claims[|claims| - 1].job == j then 1 else 0
  }

  lemma CountClaimsAppend(claims: seq<Handle>, h: Handle, j: Id)
    ensures CountClaims(claims + [h], j) == CountClaims(claims, j) + if h.job == j then 1 else 0
  {
    assert (claims + [h])[..|claims|] == claims;
  }

  ghost predicate AcceptsRetry(w: World, e: Event, a: Id) {
    e.Retry? && e.analysis == a && RetryStep(w.store, a, e.now).1.Returned?
  }

  /** Manual retries of an analysis that were accepted among the first i events. */
  ghost function AcceptedRetries(ws: seq<World>, es: seq<Event>, i: nat, a: Id): nat
    requires i <= |es| && |ws| == |es| + 1
  {
    if i == 0 then 0
    else AcceptedRetries(ws, es, i - 1, a) + (if AcceptsRetry(ws[i - 1], es[i - 1], a) then 1 else 0)
  }

  /** The job is still there, for the same analysis and with the same allowance. */
  predicate SameJob(s: Store, t: Store, j: Id)
    requires j in s.jobs
  {
    j in t.jobs && t.jobs[j].analysis == s.jobs[j].analysis && t.jobs[j].maxAttempts == s.jobs[j].maxAttempts
  }

  lemma EnqueueAttempts(sha: Bytes -> Digest, s: Store, u: Upload, j: Id)
    requires j in s.jobs
    ensures var t := EnqueueStep(sha, s, u).0; SameJob(s, t, j) && t.jobs[j].attempts == s.jobs[j].attempts
  {
    EnqueueAllOrNothing(sha, s, u);
  }

  lemma FinishAttempts(sha: Bytes -> Digest, s: Store, v: Verdict, j: Id)
    requires WellFormed(v) && j in s.jobs
    ensures var t := FinishStep(sha, s, v).0; SameJob(s, t, j) && t.jobs[j].attempts == s.jobs[j].attempts
  {
    FinishEffect(sha, s, v);
    assert SameOrigin(s.jobs[j], FinishStep(sha, s, v).0.jobs[j]);
  }

  lemma ClaimAttempts(s: Store, now: Clock, timeout: int, token: Id, j: Id)
    requires j in s.jobs
    ensures var (t, handle) := ClaimStep(s, now, timeout, token);
      SameJob(s, t, j)
      && t.jobs[j].attempts == s.jobs[j].attempts + if handle.Some? && handle.value.job == j then 1 else 0
  {
    ClaimEffect(s, now, timeout, token);
    assert SameOrigin(s.jobs[j], ClaimStep(s, now, timeout, token).0.jobs[j]);
  }

  lemma RetryAttempts(s: Store, a: Id, now: Clock, j: Id)
    requires j in s.jobs
    ensures var (t, r) := RetryStep(s, a, now);
      SameJob(s, t, j)
      && t.jobs[j].attempts == if r.Returned? && s.jobs[j].analysis == a then 0 else s.jobs[j].attempts
  {
  }

  /** One event adds a claim only by using up one attempt, and clears the count only by a retry. */
  lemma StepAttempts(sha: Bytes -> Digest, w: World, e: Event, j: Id)
    requires Invariant(sha, w) && Enabled(w, e) && j in w.store.jobs
    ensures var t := Step(sha, w, e);
      && SameJob(w.store, t.store, j)
      && (CountClaims(t.claims, j) - t.store.jobs[j].attempts == CountClaims(w.claims, j) - w.store.jobs[j].attempts
          || (t.claims == w.claims && AcceptsRetry(w, e, w.store.jobs[j].analysis) && t.store.jobs[j].attempts == 0))
  {
    match e
    case Enqueue(u) => EnqueueAttempts(sha, w.store, u, j);
    case Finish(v) => FinishAttempts(sha, w.store, v, j);
    case Retry(a, now) => RetryAttempts(w.store, a, now, j);
    case Claim(now, timeout, token) =>
      var handle := ClaimStep(w.store, now, timeout, token).1;
      ClaimAttempts(w.store, now, timeout, token, j);
      if handle.Some? { CountClaimsAppend(w.claims, handle.value, j); }
  }

  lemma NewJobUnclaimed(sha: Bytes -> Digest, w: World, e: Event, j: Id)
    requires Invariant(sha, w) && Enabled(w, e) && j !in w.store.jobs && j in Step(sha, w, e).store.jobs
    ensures CountClaims(Step(sha, w, e).claims, j) == 0
  {
    NoClaims(w.claims, j);
    match e
    case Enqueue(u) =>
    case Finish(v) => FinishEffect(sha, w.store, v);
    case Retry(b, now) =>
    case Claim(now, timeout, token) => ClaimEffect(w.store, now, timeout, token);
  }

  /** After i events the claims of job j are covered by its attempts and the retries accepted so far. */
  ghost predicate Covered(ws: seq<World>, es: seq<Event>, i: nat, j: Id)
    requires i < |ws| == |es| + 1
  {
    j in ws[i].store.jobs ==> WithinAllowance(ws[i], j, AcceptedRetries(ws, es, i, ws[i].store.jobs[j].analysis))
  }

  lemma CoveredNext(sha: Bytes -> Digest, ws: seq<World>, es: seq<Event>, i: nat, j: Id)
    requires |ws| == |es| + 1 && i < |es| && Covered(ws, es, i, j)
    requires Invariant(sha, ws[i]) && Enabled(ws[i], es[i]) && ws[i + 1] == Step(sha, ws[i], es[i])
    ensures Covered(ws, es, i + 1, j)
  {
    var w, e, u := ws[i], es[i], ws[i + 1];
    if j in w.store.jobs {
      var a := w.store.jobs[j].analysis;
      var before := AcceptedRetries(ws, es, i, a);
      StepKeepsJobs(sha, w, e, j);
      AllowanceStep(sha, w, e, u, j, before);
      assert AcceptedRetries(ws, es, i + 1, a) == before + if AcceptsRetry(w, e, a) then 1 else 0;
    } else if j in u.store.jobs {
      AllowanceStep(sha, w, e, u, j, 0);
    }
  }

  lemma StepKeepsJobs(sha: Bytes -> Digest, w: World, e: Event, j: Id)
    requires Invariant(sha, w) && Enabled(w, e) && j in w.store.jobs
    ensures j in Step(sha, w, e).store.jobs
  {
    StepAttempts(sha, w, e, j);
  }

  lemma {:induction false} CoveredAlong(ws: seq<World>, es: seq<Event>, i: nat, j: Id)
    requires i < |ws| == |es| + 1 && Covered(ws, es, 0, j)
    requires forall n | 0 <= n < |es| :: Covered(ws, es, n, j) ==> Covered(ws, es, n + 1, j)
    ensures Covered(ws, es, i, j)
  {
    if i > 0 {
      CoveredAlong(ws, es, i - 1, j);
    }
  }

  lemma ClaimsNeverExceed(sha: Bytes -> Digest, ws: seq<World>, es: seq<Event>, i: nat, j: Id)
    requires IsRun(sha, ws, es) && i < |ws|
    ensures Covered(ws, es, i, j)
  {
    forall n | 0 <= n < |es| ensures Covered(ws, es, n, j) ==> Covered(ws, es, n + 1, j) {
      if Covered(ws, es, n, j) {
        InvariantHolds(sha, ws, es, n);
        CoveredNext(sha, ws, es, n, j);
      }
    }
    CoveredAlong(ws, es, i, j);
  }

  /** One event, with the retries accepted so far: the claims of an old job, or of one that the event adds,
      stay within what its attempts and retries allow. */
  lemma AllowanceStep(sha: Bytes -> Digest, w: World, e: Event, u: World, j: Id, before: nat)
    requires Invariant(sha, w) && Enabled(w, e) && u == Step(sha, w, e) && j in u.store.jobs
    requires j in w.store.jobs ==> WithinAllowance(w, j, before)
    ensures j in w.store.jobs ==>
      && u.store.jobs[j].analysis == w.store.jobs[j].analysis
      && WithinAllowance(u, j, before + if AcceptsRetry(w, e, w.store.jobs[j].analysis) then 1 else 0)
    ensures j !in w.store.jobs ==> forall r: nat :: WithinAllowance(u, j, r)
  {
    if j in w.store.jobs {
      StepAttempts(sha, w, e, j);
      StepWithinAllowance(sha, w, e, j, before);
    } else {
      forall r: nat ensures WithinAllowance(u, j, r) {
        NewJobWithinAllowance(sha, w, e, j, r);
      }
    }
  }

  lemma NewJobWithinAllowance(sha: Bytes -> Digest, w: World, e: Event, j: Id, retries: nat)
    requires Invariant(sha, w) && Enabled(w, e) && j !in w.store.jobs && j in Step(sha, w, e).store.jobs
    ensures WithinAllowance(Step(sha, w, e), j, retries)
  {
    NewJobUnclaimed(sha, w, e, j);
    OneMore(Step(sha, w, e).store.jobs[j].maxAttempts, retries);
  }

  ghost predicate WithinAllowance(w: World, j: Id, retries: nat)
    requires j in w.store.jobs
  {
    CountClaims(w.claims, j) <= w.store.jobs[j].attempts + w.store.jobs[j].maxAttempts * retries
  }

  lemma StepWithinAllowance(sha: Bytes -> Digest, w: World, e: Event, j: Id, retries: nat)
    requires Invariant(sha, w) && Enabled(w, e) && j in w.store.jobs && WithinAllowance(w, j, retries)
    ensures j in Step(sha, w, e).store.jobs
    ensures Step(sha, w, e).store.jobs[j].analysis == w.store.jobs[j].analysis
    ensures WithinAllowance(Step(sha, w, e), j,
                            retries + if AcceptsRetry(w, e, w.store.jobs[j].analysis) then 1 else 0)
  {
    StepAttempts(sha, w, e, j);
    OneMore(w.store.jobs[j].maxAttempts, retries);
  }

  lemma OneMore(m: nat, r: nat)
    ensures m * (1 + r) == m * (r + 1) == m + m * r && m * r >= 0
  {
  }

  lemma {:induction false} NoClaims(claims: seq<Handle>, j: Id)
    requires forall h | h in claims :: h.job != j
    ensures CountClaims(claims, j) == 0
  {
    if claims != [] {
      NoClaims(claims[..|claims| - 1], j);
    }
  }

  /** A job is claimed at most max_attempts times per enqueue or accepted manual retry. */
  lemma ClaimsBounded(sha: Bytes -> Digest, ws: seq<World>, es: seq<Event>, i: nat, j: Id)
    requires IsRun(sha, ws, es) && i < |ws| && j in ws[i].store.jobs
    ensures var job := ws[i].store.jobs[j];
      CountClaims(ws[i].claims, j) <= job.maxAttempts * (1 + AcceptedRetries(ws, es, i, job.analysis))
  {
    ClaimsNeverExceed(sha, ws, es, i, j);
    InvariantHolds(sha, ws, es, i);
    OneMore(ws[i].store.jobs[j].maxAttempts, AcceptedRetries(ws, es, i, ws[i].store.jobs[j].analysis));
  }

  /** Attempts a job can still consume without a manual retry. */
  function Remaining(job: Job): nat {
    if (job.state == Queued || job.state == Running) && job.attempts <= job.maxAttempts
    then job.maxAttempts - job.attempts else 0
  }

  ghost function Budget(jobs: map<Id, Job>, among: set<Id>): nat
    requires among <= jobs.Keys
  {
    if among == {} then 0 else
      var j :| j in among;
      Remaining(jobs[j]) + Budget(jobs, among - {j})
  }

  lemma {:induction false} BudgetSplit(jobs: map<Id, Job>, among: set<Id>, j: Id)
    requires j in among && among <= jobs.Keys
    ensures Budget(jobs, among) == Remaining(jobs[j]) + Budget(jobs, among - {j})
    decreases |among|
  {
    var k :| k in among && Budget(jobs, among) == Remaining(jobs[k]) + Budget(jobs, among - {k});
    if k != j {
      BudgetSplit(jobs, among - {k}, j);
      BudgetSplit(jobs, among - {j}, k);
      assert among - {k} - {j} == among - {j} - {k};
    }
  }

  lemma {:induction false} BudgetPointwise(jobs: map<Id, Job>, other: map<Id, Job>, among: set<Id>)
    requires among <= jobs.Keys && among <= other.Keys
    requires forall j | j in among :: Remaining(jobs[j]) == Remaining(other[j])
    ensures Budget(jobs, among) == Budget(other, among)
    decreases |among|
  {
    if among != {} {
      var j :| j in among;
      BudgetSplit(jobs, among, j);
      BudgetSplit(other, among, j);
      BudgetPointwise(jobs, other, among - {j});
    }
  }

  ghost function TotalBudget(jobs: map<Id, Job>): nat {
    Budget(jobs, jobs.Keys)
  }

  lemma RecoverSpendsNothing(s: Store, now: Clock)
    requires Agreement(s)
    ensures TotalBudget(RecoverStep(s, now).jobs) == TotalBudget(s.jobs)
  {
    var r := RecoverStep(s, now);
    assert r.jobs.Keys == s.jobs.Keys;
    BudgetPointwise(s.jobs, r.jobs, s.jobs.Keys);
  }

  lemma LeaseSpendsOne(s: Store, j: Id, now: Clock, timeout: int, token: Id)
    requires Agreement(s) && j in s.jobs && s.jobs[j].state == Queued
    ensures TotalBudget(WithLease(s, j, now, timeout, token).jobs) == TotalBudget(s.jobs) - 1
  {
    var t := WithLease(s, j, now, timeout, token);
    assert t.jobs.Keys == s.jobs.Keys;
    BudgetSplit(s.jobs, s.jobs.Keys, j);
    BudgetSplit(t.jobs, s.jobs.Keys, j);
    BudgetPointwise(s.jobs, t.jobs, s.jobs.Keys - {j});
  }

  /** Every successful claim uses up exactly one unit of the remaining budget of the live jobs;
      recovering expired leases and finding nothing use up none. */
  lemma ClaimSpendsOne(s: Store, now: Clock, timeout: int, token: Id)
    requires Agreement(s)
    ensures var (t, handle) := ClaimStep(s, now, timeout, token);
      TotalBudget(t.jobs) == TotalBudget(s.jobs) - if handle.Some? then 1 else 0
  {
    var r := RecoverStep(s, now);
    RecoverSpendsNothing(s, now);
    RecoverKeepsAgreement(s, now);
    match Next(r.jobs, now)
    case None =>
    case Some(j) =>
      NextIsOldestReady(r.jobs, now);
      LeaseSpendsOne(r, j, now, timeout, token);
  }

  /* ---- Evidence follows commit and rollback ---- */

  ghost function References(s: Store): set<Id> {
    (set a | a in s.analyses :: s.analyses[a].sourceRef) + (set p | p in s.attachments :: s.attachments[p].key)
  }

  ghost predicate Crashes(e: Event) {
    (e.Enqueue? && e.upload.fault.CrashAt?) || (e.Finish? && e.verdict.fault.CrashAt?)
  }

  ghost predicate FilesAreReferences(s: Store) {
    s.files.Keys == References(s)
  }

  lemma CompletionReferences(sha: Bytes -> Digest, s: Store, h: Handle, subject: string,
                             contents: seq<Option<Bytes>>, keys: seq<Id>)
    requires Backed(sha, s) && h.job in s.jobs && h.analysis in s.analyses && s.analyses[h.analysis].result.None?
    requires |contents| <= |keys| && Writable(s.files, contents, keys, |contents|)
    ensures References(CompletedStore(sha, s, h, subject, contents, keys))
      == References(s) + KeySet(keys[..|contents|])
  {
    var n, t := |contents|, CompletedStore(sha, s, h, subject, contents, keys);
    AttachmentRowsExactly(sha, s.attachments, h.analysis, contents, keys, n);
    forall k | k in References(s) ensures k in References(t) {
      if a :| a in s.analyses && s.analyses[a].sourceRef == k {
        assert t.analyses[a].sourceRef == k;
      } else {
        var p :| p in s.attachments && s.attachments[p].key == k;
        assert t.attachments[p].key == k;
      }
    }
    forall k | k in KeySet(keys[..n]) ensures k in References(t) {
      var i :| 0 <= i < n && keys[i] == k;
      assert t.attachments[Slot(h.analysis, i)].key == k;
    }
    forall k | k in References(t) ensures k in References(s) + KeySet(keys[..n]) {
      if a :| a in t.analyses && t.analyses[a].sourceRef == k {
        assert s.analyses[a].sourceRef == k;
      } else {
        var p :| p in t.attachments && t.attachments[p].key == k;
        if p.analysis == h.analysis && p.position < n {
          assert keys[..n][p.position] == k;
        } else {
          assert s.attachments[p].key == k;
        }
      }
    }
  }

  lemma UploadReferences(sha: Bytes -> Digest, s: Store, u: Upload)
    requires Commits(s, u)
    ensures References(Uploaded(sha, s, u)) == References(s) + {u.fileKey}
  {
    var t := Uploaded(sha, s, u);
    assert t.analyses[u.analysisId].sourceRef == u.fileKey;
    forall k | k in References(s) ensures k in References(t) {
      if a :| a in s.analyses && s.analyses[a].sourceRef == k {
        assert t.analyses[a].sourceRef == k;
      } else {
        var p :| p in s.attachments && s.attachments[p].key == k;
        assert t.attachments[p].key == k;
      }
    }
  }

  lemma SameReferences(s: Store, t: Store)
    requires t.attachments == s.attachments && t.analyses.Keys == s.analyses.Keys
    requires forall a | a in s.analyses :: t.analyses[a].sourceRef == s.analyses[a].sourceRef
    ensures References(t) == References(s)
  {
    assert forall a | a in s.analyses :: t.analyses[a].sourceRef in References(t);
  }

  lemma ReferencesAreStored(sha: Bytes -> Digest, s: Store)
    requires Backed(sha, s)
    ensures References(s) <= s.files.Keys
  {
    forall r | r in References(s) ensures r in s.files {
      if a :| a in s.analyses && s.analyses[a].sourceRef == r {
        assert StoredAs(sha, s.files, OriginalOf(s.analyses[a]));
      } else {
        var p :| p in s.attachments && s.attachments[p].key == r;
        assert StoredAs(sha, s.files, s.attachments[p]);
      }
    }
  }

  lemma TidyKeepsFilesExact(s: Store, t: Store)
    requires FilesAreReferences(s) && Tidy(s, t, false) && References(t) <= t.files.Keys
    ensures FilesAreReferences(t)
  {
  }

  /** A step without a crash keeps the stored files exactly the referenced ones. */
  lemma StepKeepsFilesExact(sha: Bytes -> Digest, w: World, e: Event)
    requires Invariant(sha, w) && Enabled(w, e) && !Crashes(e) && FilesAreReferences(w.store)
    ensures FilesAreReferences(Step(sha, w, e).store)
  {
    StepIsTidy(sha, w, e);
    StepKeepsInvariant(sha, w, e);
    ReferencesAreStored(sha, Step(sha, w, e).store);
    TidyKeepsFilesExact(w.store, Step(sha, w, e).store);
  }

  lemma {:induction false} FilesExactAlong(ws: seq<World>, i: nat)
    requires i < |ws| && FilesAreReferences(ws[0].store)
    requires forall n | 0 <= n < i :: FilesAreReferences(ws[n].store) ==> FilesAreReferences(ws[n + 1].store)
    ensures FilesAreReferences(ws[i].store)
  {
    if i > 0 {
      FilesExactAlong(ws, i - 1);
    }
  }

  /** While no process dies, the evidence directory holds exactly the referenced files. */
  lemma FilesExactWithoutCrashes(sha: Bytes -> Digest, ws: seq<World>, es: seq<Event>, i: nat)
    requires IsRun(sha, ws, es) && i < |ws| && forall k | 0 <= k < i :: !Crashes(es[k])
    ensures FilesAreReferences(ws[i].store)
  {
    forall n | 0 <= n < i ensures FilesAreReferences(ws[n].store) ==> FilesAreReferences(ws[n + 1].store) {
      if FilesAreReferences(ws[n].store) {
        InvariantHolds(sha, ws, es, n);
        StepKeepsFilesExact(sha, ws[n], es[n]);
      }
    }
    FilesExactAlong(ws, i);
  }

  /** A crash before commit leaves every table as it was; a file it adds is referenced by nothing. */
  lemma CrashAddsOnlyUnreferenced(sha: Bytes -> Digest, w: World, e: Event, k: Id)
    requires Invariant(sha, w) && Enabled(w, e) && Crashes(e)
    requires (e.Enqueue? ==> EnqueueStep(sha, w.store, e.upload).1.Crashed?)
    requires (e.Finish? ==> FinishStep(sha, w.store, e.verdict).1.Crashed?)
    ensures var t := Step(sha, w, e).store;
      && t == w.store.(files := t.files) && w.store.files.Keys <= t.files.Keys
      && (k in t.files && k !in w.store.files ==> k !in References(t))
  {
    var s, t := w.store, Step(sha, w, e).store;
    if e.Enqueue? { EnqueueAllOrNothing(sha, s, e.upload); } else { FinishAllOrNothing(sha, s, e.verdict); }
    SameReferences(s, t);
    ReferencesAreStored(sha, s);
  }

  /** References are never taken back and new ones name files that were not there before; files never vanish, and
      unless the process dies a new file is referenced. */
  ghost predicate Tidy(s: Store, t: Store, crash: bool) {
    && References(s) <= References(t) && s.files.Keys <= t.files.Keys
    && (forall k | k in References(t) && k !in References(s) :: k !in s.files)
    && (!crash ==> forall k | k in t.files && k !in s.files :: k in References(t))
  }

  lemma EnqueueIsTidy(sha: Bytes -> Digest, s: Store, u: Upload)
    ensures Tidy(s, EnqueueStep(sha, s, u).0, u.fault.CrashAt?)
  {
    EnqueueAllOrNothing(sha, s, u);
    var t := EnqueueStep(sha, s, u).0;
    if t == Uploaded(sha, s, u) && Commits(s, u) {
      UploadReferences(sha, s, u);
    } else {
      SameReferences(s, t);
    }
  }

  lemma FinishIsTidy(sha: Bytes -> Digest, w: World, v: Verdict)
    requires Invariant(sha, w) && Enabled(w, Finish(v))
    ensures Tidy(w.store, FinishStep(sha, w.store, v).0, v.fault.CrashAt?)
  {
    var s := w.store;
    var (t, outcome) := FinishStep(sha, s, v);
    if outcome != Returned(true) {
      FinishAllOrNothing(sha, s, v);
      SameReferences(s, t);
    } else {
      match v.payload
      case Failure(_) => SameReferences(s, FailedStore(s, v.handle, v.now));
      case Document(subject, contents, keys) => CompletionIsTidy(sha, s, v.handle, subject, contents, keys);
    }
  }

  lemma CompletionIsTidy(sha: Bytes -> Digest, s: Store, h: Handle, subject: string,
                         contents: seq<Option<Bytes>>, keys: seq<Id>)
    requires Backed(sha, s) && h.job in s.jobs && h.analysis in s.analyses && s.analyses[h.analysis].result.None?
    requires |contents| <= |keys| && Writable(s.files, contents, keys, |contents|)
    ensures Tidy(s, CompletedStore(sha, s, h, subject, contents, keys), false)
  {
    var n := |contents|;
    CompletionReferences(sha, s, h, subject, contents, keys);
    WrittenExactly(s.files, contents, keys, n);
    forall k | k in KeySet(keys[..n]) ensures k !in s.files {
      var i :| 0 <= i < n && keys[i] == k;
    }
  }

  lemma StepIsTidy(sha: Bytes -> Digest, w: World, e: Event)
    requires Invariant(sha, w) && Enabled(w, e)
    ensures Tidy(w.store, Step(sha, w, e).store, Crashes(e))
  {
    match e
    case Enqueue(u) => EnqueueIsTidy(sha, w.store, u);
    case Finish(v) => FinishIsTidy(sha, w, v);
    case Claim(now, timeout, token) =>
      ClaimEffect(w.store, now, timeout, token);
      SameReferences(w.store, ClaimStep(w.store, now, timeout, token).0);
    case Retry(a, now) =>
      RetryEffect(w.store, a, now);
      SameReferences(w.store, RetryStep(w.store, a, now).0);
  }

  lemma RunIsTidy(sha: Bytes -> Digest, ws: seq<World>, es: seq<Event>)
    requires IsRun(sha, ws, es)
    ensures forall n | 0 <= n < |es| :: Tidy(ws[n].store, ws[n + 1].store, Crashes(es[n]))
  {
    forall n | 0 <= n < |es| ensures Tidy(ws[n].store, ws[n + 1].store, Crashes(es[n])) {
      InvariantHolds(sha, ws, es, n);
      StepIsTidy(sha, ws[n], es[n]);
    }
  }

  /** A stored file that nothing refers to. */
  ghost predicate Orphan(s: Store, k: Id) {
    k in s.files && k !in References(s)
  }

  /** Event j is a crash that left file k behind. */
  ghost predicate LeftBehind(ws: seq<World>, es: seq<Event>, j: int, k: Id)
    requires |ws| == |es| + 1
  {
    0 <= j < |es| && Crashes(es[j]) && k !in ws[j].store.files && k in ws[j + 1].store.files
  }

  lemma {:induction false} OrphanWasLeftBehind(ws: seq<World>, es: seq<Event>, i: nat, k: Id)
    requires |ws| == |es| + 1 && i < |ws| && ws[0].store.files == map[] && Orphan(ws[i].store, k)
    requires forall n | 0 <= n < |es| :: Tidy(ws[n].store, ws[n + 1].store, Crashes(es[n]))
    ensures exists j :: j < i && LeftBehind(ws, es, j, k)
  {
    if i > 0 {
      assert Tidy(ws[i - 1].store, ws[i].store, Crashes(es[i - 1]));
      if k in ws[i - 1].store.files {
        OrphanWasLeftBehind(ws, es, i - 1, k);
        var j :| j < i - 1 && LeftBehind(ws, es, j, k);
        assert j < i && LeftBehind(ws, es, j, k);
      } else {
        assert LeftBehind(ws, es, i - 1, k);
      }
    }
  }

  lemma {:induction false} OrphanStays(ws: seq<World>, es: seq<Event>, i: nat, m: nat, k: Id)
    requires |ws| == |es| + 1 && i <= m < |ws| && Orphan(ws[i].store, k)
    requires forall n | 0 <= n < |es| :: Tidy(ws[n].store, ws[n + 1].store, Crashes(es[n]))
    ensures Orphan(ws[m].store, k)
  {
    if i < m {
      OrphanStays(ws, es, i, m - 1, k);
      assert Tidy(ws[m - 1].store, ws[m].store, Crashes(es[m - 1]));
    }
  }

  /** Over all runs, a file that nothing refers to was left behind by the crash of an earlier upload or worker, and
      nothing will ever refer to it: evidence is exactly what commits made it. */
  lemma OrphansComeFromCrashes(sha: Bytes -> Digest, ws: seq<World>, es: seq<Event>, i: nat, m: nat, k: Id)
    requires IsRun(sha, ws, es) && i <= m < |ws| && Orphan(ws[i].store, k)
    ensures exists j :: j < i && LeftBehind(ws, es, j, k)
    ensures Orphan(ws[m].store, k)
  {
    RunIsTidy(sha, ws, es);
    OrphanWasLeftBehind(ws, es, i, k);
    OrphanStays(ws, es, i, m, k);
  }

  /* ---- Idempotent uploads ---- */

  /** What an upload recorded is still there: the analysis keeps its original and its job its key. */
  ghost predicate KeepsOriginals(s: Store, t: Store) {
    && (forall a | a in s.analyses :: a in t.analyses
          && t.analyses[a].(status := Queued, result := None) == s.analyses[a].(status := Queued, result := None))
    && (forall j | j in s.jobs :: j in t.jobs && SameOrigin(s.jobs[j], t.jobs[j]))
  }

  lemma EnqueueKeepsOriginals(sha: Bytes -> Digest, s: Store, u: Upload)
    ensures KeepsOriginals(s, EnqueueStep(sha, s, u).0)
  {
    EnqueueAllOrNothing(sha, s, u);
  }

  lemma SameUpToStateKeepsOriginals(s: Store, t: Store)
    requires SameUpToState(s, t)
    ensures KeepsOriginals(s, t)
  {
  }

  lemma StepKeepsOriginals(sha: Bytes -> Digest, w: World, e: Event)
    requires Enabled(w, e)
    ensures KeepsOriginals(w.store, Step(sha, w, e).store)
  {
    match e
    case Enqueue(u) => EnqueueKeepsOriginals(sha, w.store, u);
    case Claim(now, timeout, token) =>
      ClaimEffect(w.store, now, timeout, token);
      SameUpToStateKeepsOriginals(w.store, ClaimStep(w.store, now, timeout, token).0);
    case Retry(b, now) =>
      RetryEffect(w.store, b, now);
      SameUpToStateKeepsOriginals(w.store, RetryStep(w.store, b, now).0);
    case Finish(v) =>
      FinishEffect(sha, w.store, v);
      SameUpToStateKeepsOriginals(w.store, FinishStep(sha, w.store, v).0);
  }

  lemma KeepsOriginalsTransitive(s: Store, t: Store, u: Store)
    requires KeepsOriginals(s, t) && KeepsOriginals(t, u)
    ensures KeepsOriginals(s, u)
  {
    forall a | a in s.analyses ensures a in u.analyses {}
  }

  lemma {:induction false} OriginalsAreKeptAlong(ws: seq<World>, i: nat, k: nat)
    requires i <= k < |ws| && forall n | i <= n < k :: KeepsOriginals(ws[n].store, ws[n + 1].store)
    ensures KeepsOriginals(ws[i].store, ws[k].store)
  {
    if i < k {
      OriginalsAreKeptAlong(ws, i, k - 1);
      KeepsOriginalsTransitive(ws[i].store, ws[k - 1].store, ws[k].store);
    }
  }

  /** Name, owner, case, digest, size and stored original of an analysis never change once recorded, nor
      do the owner, key and analysis of its job. */
  lemma OriginalsAreImmutable(sha: Bytes -> Digest, ws: seq<World>, es: seq<Event>, i: nat, k: nat)
    requires IsRun(sha, ws, es) && i <= k < |ws|
    ensures KeepsOriginals(ws[i].store, ws[k].store)
  {
    forall n | i <= n < k ensures KeepsOriginals(ws[n].store, ws[n + 1].store) {
      StepKeepsOriginals(sha, ws[n], es[n]);
    }
    OriginalsAreKeptAlong(ws, i, k);
  }

  /** An upload that repeats an accepted (user, Idempotency-Key) pair, at any later time, adds
      nothing: it gets the original id if it carries the same bytes (and, when it names a case,
      the same case), and is refused otherwise. */
  lemma RepeatedUploadAddsNothing(sha: Bytes -> Digest, ws: seq<World>, es: seq<Event>, i: nat, k: nat)
    requires IsRun(sha, ws, es) && i < k < |es| && es[i].Enqueue? && es[k].Enqueue?
    requires es[i].upload.idempotencyKey.Some?
    requires es[k].upload.user == es[i].upload.user && es[k].upload.idempotencyKey == es[i].upload.idempotencyKey
    requires EnqueueStep(sha, ws[i].store, es[i].upload).0.jobs != ws[i].store.jobs
    ensures var u, v := es[i].upload, es[k].upload;
      EnqueueStep(sha, ws[k].store, v) ==
        (ws[k].store,
         if sha(v.raw) == sha(u.raw) && (v.caseId.Some? ==> v.caseId == u.caseId)
         then Returned(u.analysisId) else Raised(KeyReused))
  {
    var u, v := es[i].upload, es[k].upload;
    EnqueueAllOrNothing(sha, ws[i].store, u);
    InvariantHolds(sha, ws, es, k);
    OriginalsAreImmutable(sha, ws, es, i + 1, k);
    assert Replays(ws[k].store, v, u.jobId);
    forall j | Replays(ws[k].store, v, j) ensures j == u.jobId {
      assert SameKey(ws[k].store.jobs[j], ws[k].store.jobs[u.jobId]);
    }
  }
}
