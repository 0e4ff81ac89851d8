/** Who may take, keep and give back a job, read off the columns of the two tables, and what that means over runs:
    leases are exclusive while they last, back-offs are waited for, and nobody overtakes in the queue. */
module JobLeases {
  import opened Common
  import opened EvidenceStore
  import opened JobTables
  import opened JobRuns

  /* ---- Claims ---- */

  /** The two rows of job j are the same before and after. */
  predicate SameRows(s: Store, t: Store, j: Id)
    requires j in s.jobs && s.jobs[j].analysis in s.analyses
  {
    && j in t.jobs && t.jobs[j] == s.jobs[j]
    && s.jobs[j].analysis in t.analyses && t.analyses[s.jobs[j].analysis] == s.analyses[s.jobs[j].analysis]
  }

  lemma NextAfterRecovery(s: Store, now: Clock)
    ensures var r := RecoverStep(s, now); Next(r.jobs, now).Some? ==> IsNext(r.jobs, now, Next(r.jobs, now).value)
  {
    NextIsOldestReady(RecoverStep(s, now).jobs, now);
  }

  /** A job is taken from its worker only after the lease has run out. Before that its rows stay as they are, whatever
      the claim finds; afterwards it is either the job the claim returns or goes back into the queue, unless its
      attempts are used up. */
  lemma LeaseDecides(s: Store, now: Clock, timeout: int, token: Id, j: Id)
    requires Agreement(s) && j in s.jobs && s.jobs[j].state == Running
    ensures var (t, h) := ClaimStep(s, now, timeout, token);
      var job := s.jobs[j];
      && (job.leaseUntil.value >= now ==> SameRows(s, t, j) && (h.Some? ==> h.value.job != j))
      && (job.leaseUntil.value < now ==>
            && j in t.jobs && job.analysis in t.analyses && t.analyses[job.analysis].status == t.jobs[j].state
            && if h.Some? && h.value.job == j
               then t.jobs[j].state == Running && t.jobs[j].leaseToken == Some(token) && job.attempts < job.maxAttempts
               else t.jobs[j] == job.(state := if job.attempts >= job.maxAttempts then Failed else Queued,
                                      leaseToken := None, leaseUntil := None))
  {
    RecoveredStatusOfJob(s, now, j);
    NextAfterRecovery(s, now);
    RecoveredRowIs(s, now, j);
    var r := RecoverStep(s, now);
    match Next(r.jobs, now)
    case None =>
    case Some(k) =>
      RecoverKeepsAgreement(s, now);
      LeaseLeavesOthers(r, k, now, timeout, token, j);
  }

  lemma RecoveredRowIs(s: Store, now: Clock, j: Id)
    requires Agreement(s) && j in s.jobs
    ensures var job, row := s.jobs[j], RecoverStep(s, now).jobs[j];
      row == if job.state == Running && job.leaseUntil.value < now
             then job.(state := if job.attempts >= job.maxAttempts then Failed else Queued, leaseToken := None, leaseUntil := None)
             else job
    ensures s.jobs[j].state == Running && s.jobs[j].leaseUntil.value >= now ==> SameRows(s, RecoverStep(s, now), j)
    ensures s.jobs[j].state != Running ==> SameRows(s, RecoverStep(s, now), j)
  {
    RecoveredStatusOfJob(s, now, j);
  }

  lemma LeaseLeavesOthers(s: Store, k: Id, now: Clock, timeout: int, token: Id, j: Id)
    requires Agreement(s) && k in s.jobs && j in s.jobs
    ensures var t := WithLease(s, k, now, timeout, token);
      && (j != k ==> SameRows(s, t, j))
      && t.jobs[k] == s.jobs[k].(state := Running, attempts := s.jobs[k].attempts + 1, leaseToken := Some(token),
                                 leaseUntil := Some(now + timeout as real + 60.0))
      && t.analyses[s.jobs[k].analysis] == s.analyses[s.jobs[k].analysis].(status := Running)
  {
  }

  /** Waiting in the queue past its back-off, or abandoned in the middle of an attempt that was not its last. */
  predicate Takeable(job: Job, now: Clock) {
    && job.availableAt <= now
    && (job.state == Queued
        || (job.state == Running && job.leaseUntil.Some? && job.leaseUntil.value < now && job.attempts < job.maxAttempts))
  }

  lemma TakeableIsReady(s: Store, now: Clock, k: Id)
    requires Agreement(s) && k in s.jobs
    ensures var r := RecoverStep(s, now);
      && (Takeable(s.jobs[k], now) <==> Ready(r.jobs[k], now))
      && r.jobs[k].createdAt == s.jobs[k].createdAt && r.jobs[k].analysis == s.jobs[k].analysis
  {
    RecoveredRowIs(s, now, k);
  }

  /** A claim takes the takeable job that was created first, by id among equals, and none exactly if no job is
      takeable. */
  lemma ClaimTakesFirst(s: Store, now: Clock, timeout: int, token: Id)
    requires Agreement(s)
    ensures var h := ClaimStep(s, now, timeout, token).1;
      && (h.None? <==> forall k | k in s.jobs :: !Takeable(s.jobs[k], now))
      && (h.Some? ==>
            var j := h.value.job;
            && j in s.jobs && Takeable(s.jobs[j], now) && h.value == Handle(j, s.jobs[j].analysis, token)
            && forall k | k in s.jobs && Takeable(s.jobs[k], now) ::
                 s.jobs[j].createdAt < s.jobs[k].createdAt || (s.jobs[j].createdAt == s.jobs[k].createdAt && j <= k))
  {
    var r := RecoverStep(s, now);
    NextIsOldestReady(r.jobs, now);
    forall k | k in s.jobs { TakeableIsReady(s, now, k); }
  }

  /** The job it takes runs from then on, for the timeout and a minute more, and has used one attempt more. */
  lemma ClaimLeases(s: Store, now: Clock, timeout: int, token: Id)
    requires Agreement(s) && ClaimStep(s, now, timeout, token).1.Some?
    ensures var (t, h) := ClaimStep(s, now, timeout, token);
      var j := h.value.job;
      && j in s.jobs && h.value == Handle(j, s.jobs[j].analysis, token)
      && j in t.jobs && t.jobs[j] == s.jobs[j].(state := Running, attempts := s.jobs[j].attempts + 1,
                                                leaseToken := Some(token), leaseUntil := Some(now + timeout as real + 60.0))
      && s.jobs[j].analysis in t.analyses && t.analyses[s.jobs[j].analysis].status == Running
  {
    var r := RecoverStep(s, now);
    NextIsOldestReady(r.jobs, now);
    var j := Next(r.jobs, now).value;
    RecoverKeepsAgreement(s, now);
    RecoveredRowIs(s, now, j);
    LeaseLeavesOthers(r, j, now, timeout, token, j);
  }

  /** A job that is not running and not taken keeps its rows. */
  lemma ClaimSparesWaiting(s: Store, now: Clock, timeout: int, token: Id, k: Id)
    requires Agreement(s) && k in s.jobs && s.jobs[k].state != Running
    requires var h := ClaimStep(s, now, timeout, token).1; h.Some? ==> h.value.job != k
    ensures SameRows(s, ClaimStep(s, now, timeout, token).0, k)
  {
    var r := RecoverStep(s, now);
    NextAfterRecovery(s, now);
    RecoveredRowIs(s, now, k);
    if Next(r.jobs, now).Some? {
      RecoverKeepsAgreement(s, now);
      LeaseLeavesOthers(r, Next(r.jobs, now).value, now, timeout, token, k);
    }
  }

  /* ---- Verdicts ---- */

  /** A verdict counts exactly while its worker holds the lease: same token, and the lease has not run out. */
  lemma VerdictCountsIff(sha: Bytes -> Digest, s: Store, v: Verdict)
    requires Agreement(s) && WellFormed(v) && v.handle.job in s.jobs && s.jobs[v.handle.job].analysis == v.handle.analysis
    ensures var job := s.jobs[v.handle.job];
      FinishStep(sha, s, v).1 == Returned(false) <==>
        !(job.state == Running && job.leaseToken == Some(v.handle.token) && v.now <= job.leaseUntil.value)
  {
  }

  /** Seconds until the next attempt: 2, 4, 8, 16 and 32, then a minute. */
  function Delay(attempts: nat): real {
    match attempts
    case 0 => 1.0
    case 1 => 2.0
    case 2 => 4.0
    case 3 => 8.0
    case 4 => 16.0
    case 5 => 32.0
    case _ => 60.0
  }

  lemma {:induction false} BackoffIsDelay(attempts: nat)
    ensures Backoff(attempts) == Delay(attempts)
  {
    if attempts <= 6 {
      assert Power2(6) == 64;
    } else {
      PowerAtLeast(attempts);
    }
  }

  lemma {:induction false} PowerAtLeast(n: nat)
    requires n >= 6
    ensures Power2(n) >= 64
  {
    if n == 6 {
      assert Power2(6) == 64;
    } else {
      PowerAtLeast(n - 1);
    }
  }

  /** A reported failure gives the job back: for good when its attempts are used up, otherwise to the queue for another
      attempt after the back-off. The analysis follows, and nothing else changes. */
  lemma FailureGivesJobBack(sha: Bytes -> Digest, s: Store, v: Verdict)
    requires Agreement(s) && v.payload.Failure? && FinishStep(sha, s, v).1 == Returned(true)
    requires v.handle.job in s.jobs && s.jobs[v.handle.job].analysis == v.handle.analysis
    ensures var t := FinishStep(sha, s, v).0;
      var j, a, job := v.handle.job, v.handle.analysis, s.jobs[v.handle.job];
      var state := if job.attempts >= job.maxAttempts then Failed else Queued;
      && t.jobs == s.jobs[j := job.(state := state, availableAt := v.now + Delay(job.attempts), leaseToken := None, leaseUntil := None)]
      && t.analyses == s.analyses[a := s.analyses[a].(status := state)]
      && t.attachments == s.attachments && t.files == s.files
  {
    BackoffIsDelay(s.jobs[v.handle.job].attempts);
  }

  /** A document completes the job: its report reads back with size and digest of each attachment, whose bytes are
      stored under the key that its evidence row names. */
  lemma CompletionReadsBack(sha: Bytes -> Digest, s: Store, v: Verdict, i: nat)
    requires Agreement(s) && WellFormed(v) && v.payload.Document? && FinishStep(sha, s, v).1 == Returned(true)
    requires v.handle.job in s.jobs && s.jobs[v.handle.job].analysis == v.handle.analysis
    requires i < |v.payload.attachments|
    ensures v.payload.attachments[i].Some?
    ensures var t := FinishStep(sha, s, v).0;
      var raw, key := v.payload.attachments[i].value, v.payload.keys[i];
      && t.analyses[v.handle.analysis].result.Some?
      && var report := t.analyses[v.handle.analysis].result.value;
      && |report.attachments| == |v.payload.attachments| && report.attachments[i] == Metadata(|raw|, sha(raw))
      && Slot(v.handle.analysis, i) in t.attachments && t.attachments[Slot(v.handle.analysis, i)] == Evidence(key, sha(raw), |raw|)
      && key !in s.files && key in t.files && t.files[key] == raw
  {
    AttachmentRowsExactly(sha, s.attachments, v.handle.analysis, v.payload.attachments, v.payload.keys, |v.payload.attachments|);
    WrittenExactly(s.files, v.payload.attachments, v.payload.keys, |v.payload.attachments|);
  }

  lemma CompletionEndsJob(sha: Bytes -> Digest, s: Store, v: Verdict)
    requires Agreement(s) && WellFormed(v) && v.payload.Document? && FinishStep(sha, s, v).1 == Returned(true)
    requires v.handle.job in s.jobs && s.jobs[v.handle.job].analysis == v.handle.analysis
    ensures var t := FinishStep(sha, s, v).0;
      var j, a := v.handle.job, v.handle.analysis;
      && t.jobs == s.jobs[j := s.jobs[j].(state := Completed, leaseToken := None, leaseUntil := None)]
      && a in t.analyses && t.analyses[a].result.Some? && t.analyses[a].result.value.subject == v.payload.subject
      && t.analyses == s.analyses[a := s.analyses[a].(status := Completed, result := t.analyses[a].result)]
  {
  }

  /** What becomes of the verdict of the holder. A failure commits unless something interferes; a document if, besides,
      every attachment decodes and its key is new. Nothing commits otherwise: an exception leaves no trace, and a crash
      none but files. */
  lemma VerdictCommitsIff(sha: Bytes -> Digest, s: Store, v: Verdict)
    requires Agreement(s) && WellFormed(v) && v.handle.job in s.jobs && s.jobs[v.handle.job].analysis == v.handle.analysis
    requires FinishStep(sha, s, v).1 != Returned(false)
    ensures var (t, r) := FinishStep(sha, s, v);
      && (r == Returned(true) <==> v.fault == NoFault && (v.payload.Document? ==> Storable(s, v.payload.attachments, v.payload.keys)))
      && (r != Returned(true) ==>
            t == s.(files := t.files) && (r == Raised(StorageFault) || (r == Crashed && v.fault.CrashAt?)) && (r != Crashed ==> t == s))
  {
    if v.payload.Document? {
      StorableIsWritable(s, v.payload.attachments, v.payload.keys);
      AbortedGrowsFiles<bool>(s, v.payload.attachments, v.payload.keys, v.fault);
    } else {
      AbortedGrowsFiles<bool>(s, [], [], v.fault);
    }
  }

  /** Every attachment decodes, and the keys drawn for them are new and all different. */
  predicate Storable(s: Store, contents: seq<Option<Bytes>>, keys: seq<Id>)
    requires |contents| <= |keys|
  {
    && (forall i | 0 <= i < |contents| :: contents[i].Some? && keys[i] !in s.files)
    && (forall i, k | 0 <= i < k < |contents| :: keys[i] != keys[k])
  }

  lemma StorableIsWritable(s: Store, contents: seq<Option<Bytes>>, keys: seq<Id>)
    requires |contents| <= |keys|
    ensures Storable(s, contents, keys) <==> Writable(s.files, contents, keys, |contents|)
  {
  }

  /** A crash really can leave a file behind that nothing names, and an exception at the same point cannot. */
  lemma InterruptedUpload(sha: Bytes -> Digest, s: Store, u: Upload)
    requires u.idempotencyKey.None? && (u.caseId.Some? ==> u.caseExists) && u.guardAccepts && u.fileKey !in s.files
    ensures u.fault == RaiseAt(1) ==> EnqueueStep(sha, s, u) == (s, Raised(StorageFault))
    ensures u.fault == CrashAt(1, 1) ==> EnqueueStep(sha, s, u) == (s, Crashed)
    ensures u.fault == CrashAt(1, 0) ==> EnqueueStep(sha, s, u) == (s.(files := s.files[u.fileKey := u.raw]), Crashed)
  {
    var contents, keys := [Some(u.raw)], [u.fileKey];
    assert Writable(s.files, contents, keys, 1);
    WrittenExactly(s.files, contents, keys, 1);
    assert Written(s.files, contents, keys, 1) == s.files[u.fileKey := u.raw];
    assert keys[..0] == [] && keys[..1] == keys;
    assert s.files[u.fileKey := u.raw] - KeySet(keys[..0]) == s.files[u.fileKey := u.raw];
    assert s.files[u.fileKey := u.raw] - KeySet(keys[..1]) == s.files;
  }

  /* ---- Uploads ---- */

  /** Which refusal an upload that repeats no key gets, in this order; accepted, it waits in the queue with its
      attempts clamped to 1 to 10, its analysis names the stored bytes, and a claim at any time from 1970 on finds a
      job to take. */
  lemma UploadIsQueued(sha: Bytes -> Digest, s: Store, u: Upload)
    requires forall j | j in s.jobs :: !(s.jobs[j].createdBy == u.user && u.idempotencyKey.Some? && s.jobs[j].idempotencyKey == u.idempotencyKey)
    requires u.fault.NoFault? && u.fileKey !in s.files && u.analysisId !in s.analyses && u.jobId !in s.jobs
    ensures var (t, r) := EnqueueStep(sha, s, u);
      if u.idempotencyKey.Some? && !(1 <= |u.idempotencyKey.value| <= 128) then t == s && r == Raised(InvalidKey)
      else if u.caseId.Some? && !u.caseExists then t == s && r == Raised(CaseNotFound)
      else if !u.guardAccepts then t == s && r == Raised(GuardRejected)
      else
        var c := u.configuredAttempts;
        && r == Returned(u.analysisId)
        && t.jobs == s.jobs[u.jobId := Job(u.analysisId, Queued, 0, if c < 1 then 1 else if c > 10 then 10 else c, 0.0,
                                           None, None, u.now, u.user, u.idempotencyKey)]
        && t.analyses == s.analyses[u.analysisId := Analysis(u.caseId, u.filename, sha(u.raw), Queued, u.user, u.fileKey, |u.raw|, None)]
        && t.attachments == s.attachments && t.files == s.files[u.fileKey := u.raw]
  {
  }

  lemma UploadIsClaimable(sha: Bytes -> Digest, s: Store, u: Upload, now: Clock, timeout: int, token: Id)
    requires Agreement(s) && EnqueueStep(sha, s, u).1.Returned? && EnqueueStep(sha, s, u).0 != s && now >= 0.0
    ensures ClaimStep(EnqueueStep(sha, s, u).0, now, timeout, token).1.Some?
  {
    EnqueueAllOrNothing(sha, s, u);
    var t := EnqueueStep(sha, s, u).0;
    UploadKeepsAgreement(sha, s, u);
    assert Takeable(t.jobs[u.jobId], now);
    ClaimTakesFirst(t, now, timeout, token);
  }

  /* ---- Manual retries ---- */

  /** Only a failed analysis can be tried again; its jobs are then queued afresh, with all their attempts, and nothing
      else changes. */
  lemma RetryAnswers(s: Store, a: Id, now: Clock, j: Id)
    requires Agreement(s)
    ensures var (t, r) := RetryStep(s, a, now);
      if a !in s.analyses then t == s && r == Raised(NotFound)
      else if s.analyses[a].status != Failed then t == s && r == Raised(NotFailed)
      else
        && r == Returned(()) && t.analyses == s.analyses[a := s.analyses[a].(status := Queued)]
        && t.attachments == s.attachments && t.files == s.files && (j in t.jobs <==> j in s.jobs)
        && (j in s.jobs && s.jobs[j].analysis != a ==> t.jobs[j] == s.jobs[j])
        && (j in s.jobs && s.jobs[j].analysis == a ==> t.jobs[j] == s.jobs[j].(state := Queued, attempts := 0, availableAt := now))
  {
  }

  /* ---- Over runs ---- */

  /** Event n takes job j. */
  ghost predicate Takes(ws: seq<World>, es: seq<Event>, n: nat, j: Id)
    requires n < |es|
    requires |ws| == |es| + 1
  {
    es[n].Claim? && var h := ClaimStep(ws[n].store, es[n].now, es[n].timeout, es[n].token).1; h.Some? && h.value.job == j
  }

  /** The job is held under this token until this time. */
  predicate HeldUntil(s: Store, h: Handle, end: Clock) {
    && h.job in s.jobs && s.jobs[h.job].state == Running && s.jobs[h.job].analysis == h.analysis
    && s.jobs[h.job].leaseToken == Some(h.token) && s.jobs[h.job].leaseUntil == Some(end)
  }

  /** An event that leaves a lease alone: a claim that reads the clock before its end, or the verdict of another
      worker, or anything else. */
  predicate Spares(e: Event, h: Handle, end: Clock) {
    (e.Claim? ==> e.now <= end) && (e.Finish? ==> e.verdict.handle != h)
  }

  lemma OthersVerdictSparesLease(sha: Bytes -> Digest, w: World, v: Verdict, h: Handle, end: Clock)
    requires Invariant(sha, w) && Enabled(w, Finish(v)) && HeldUntil(w.store, h, end) && h in w.claims && v.handle != h
    ensures HeldUntil(FinishStep(sha, w.store, v).0, h, end)
  {
    if v.handle.job == h.job {
      assert v.handle.token != h.token;
      FinishAllOrNothing(sha, w.store, v);
    } else if FinishStep(sha, w.store, v).1 == Returned(true) {
      HeldByOther(sha, w.store, v, h.job);
    } else {
      FinishAllOrNothing(sha, w.store, v);
    }
  }

  lemma HeldByOther(sha: Bytes -> Digest, s: Store, v: Verdict, j: Id)
    requires WellFormed(v) && FinishStep(sha, s, v).1 == Returned(true) && j in s.jobs && v.handle.job != j
    ensures var t := FinishStep(sha, s, v).0; j in t.jobs && t.jobs[j] == s.jobs[j]
  {
  }

  lemma LeaseStep(sha: Bytes -> Digest, w: World, e: Event, h: Handle, end: Clock)
    requires Invariant(sha, w) && Enabled(w, e) && HeldUntil(w.store, h, end) && h in w.claims && Spares(e, h, end)
    ensures HeldUntil(Step(sha, w, e).store, h, end) && h in Step(sha, w, e).claims
  {
    match e
    case Enqueue(u) => EnqueueAllOrNothing(sha, w.store, u);
    case Claim(now, timeout, token) => LeaseDecides(w.store, now, timeout, token, h.job);
    case Finish(v) => OthersVerdictSparesLease(sha, w, v, h, end);
    case Retry(a, now) => RetrySparesRunning(w.store, a, now, h.job);
  }

  lemma RetrySparesRunning(s: Store, a: Id, now: Clock, j: Id)
    requires Agreement(s) && j in s.jobs && s.jobs[j].state == Running
    ensures var t := RetryStep(s, a, now).0; j in t.jobs && t.jobs[j] == s.jobs[j]
  {
  }

  lemma {:induction false} HeldAlong(ws: seq<World>, i: nat, k: nat, h: Handle, end: Clock)
    requires i <= k < |ws| && HeldUntil(ws[i].store, h, end) && h in ws[i].claims
    requires forall n | i <= n < k ::
      HeldUntil(ws[n].store, h, end) && h in ws[n].claims ==> HeldUntil(ws[n + 1].store, h, end) && h in ws[n + 1].claims
    ensures HeldUntil(ws[k].store, h, end) && h in ws[k].claims
  {
    if i < k {
      HeldAlong(ws, i, k - 1, h, end);
    }
  }

  /** Event i is a claim that returns h, with a lease until `end`. */
  ghost predicate Grants(ws: seq<World>, es: seq<Event>, i: nat, h: Handle, end: Clock)
    requires i < |es| && |ws| == |es| + 1
  {
    es[i].Claim? && ClaimStep(ws[i].store, es[i].now, es[i].timeout, es[i].token).1 == Some(h)
    && end == es[i].now + es[i].timeout as real + 60.0
  }

  lemma GrantStep(s: Store, now: Clock, timeout: int, token: Id, h: Handle)
    requires Agreement(s) && ClaimStep(s, now, timeout, token).1 == Some(h)
    ensures HeldUntil(ClaimStep(s, now, timeout, token).0, h, now + timeout as real + 60.0)
  {
    ClaimLeases(s, now, timeout, token);
  }

  lemma GrantHolds(sha: Bytes -> Digest, ws: seq<World>, es: seq<Event>, i: nat, h: Handle, end: Clock)
    requires IsRun(sha, ws, es) && i < |es| && Grants(ws, es, i, h, end)
    ensures HeldUntil(ws[i + 1].store, h, end) && h in ws[i + 1].claims
  {
    InvariantHolds(sha, ws, es, i);
    GrantStep(ws[i].store, es[i].now, es[i].timeout, es[i].token, h);
    assert ws[i + 1] == Step(sha, ws[i], es[i]);
  }

  /** A lease is exclusive. From the claim on, as long as no claim reads a clock beyond its end and the worker has not
      reported, the job stays with that worker until that time. */
  lemma LeaseIsExclusive(sha: Bytes -> Digest, ws: seq<World>, es: seq<Event>, i: nat, k: nat, h: Handle, end: Clock)
    requires IsRun(sha, ws, es) && i < k <= |es| && Grants(ws, es, i, h, end)
    requires forall n | i < n < k :: Spares(es[n], h, end)
    ensures HeldUntil(ws[k].store, h, end)
  {
    GrantHolds(sha, ws, es, i, h, end);
    forall n | i + 1 <= n < k && HeldUntil(ws[n].store, h, end) && h in ws[n].claims
      ensures HeldUntil(ws[n + 1].store, h, end) && h in ws[n + 1].claims
    {
      InvariantHolds(sha, ws, es, n);
      assert Spares(es[n], h, end);
      LeaseStep(sha, ws[n], es[n], h, end);
    }
    HeldAlong(ws, i + 1, k, h, end);
  }

  /** So its verdict counts exactly if it comes within the lease. */
  lemma VerdictWithinLeaseCounts(sha: Bytes -> Digest, ws: seq<World>, es: seq<Event>, i: nat, k: nat, h: Handle, end: Clock, v: Verdict)
    requires IsRun(sha, ws, es) && i < k <= |es| && Grants(ws, es, i, h, end)
    requires forall n | i < n < k :: Spares(es[n], h, end)
    requires WellFormed(v) && v.handle == h
    ensures FinishStep(sha, ws[k].store, v).1 == Returned(false) <==> v.now > end
  {
    LeaseIsExclusive(sha, ws, es, i, k, h, end);
    InvariantHolds(sha, ws, es, k);
    VerdictCountsIff(sha, ws[k].store, v);
  }

  /** The job waits in the queue with this row. */
  predicate Waits(s: Store, j: Id, row: Job) {
    j in s.jobs && s.jobs[j] == row && row.state == Queued
  }

  lemma WaitingStep(sha: Bytes -> Digest, w: World, e: Event, j: Id, row: Job)
    requires Invariant(sha, w) && Enabled(w, e) && Waits(w.store, j, row)
    requires e.Claim? ==> var h := ClaimStep(w.store, e.now, e.timeout, e.token).1; h.Some? ==> h.value.job != j
    ensures Waits(Step(sha, w, e).store, j, row)
  {
    match e
    case Enqueue(u) => EnqueueAllOrNothing(sha, w.store, u);
    case Claim(now, timeout, token) => ClaimSparesWaiting(w.store, now, timeout, token, j);
    case Finish(v) => FinishSparesWaiting(sha, w.store, v, j);
    case Retry(a, now) => RetrySparesWaiting(w.store, a, now, j);
  }

  lemma FinishSparesWaiting(sha: Bytes -> Digest, s: Store, v: Verdict, j: Id)
    requires WellFormed(v) && j in s.jobs && s.jobs[j].state == Queued
    ensures var t := FinishStep(sha, s, v).0; j in t.jobs && t.jobs[j] == s.jobs[j]
  {
    FinishAllOrNothing(sha, s, v);
    if FinishStep(sha, s, v).1 == Returned(true) {
      HeldByOther(sha, s, v, j);
    }
  }

  lemma RetrySparesWaiting(s: Store, a: Id, now: Clock, j: Id)
    requires Agreement(s) && j in s.jobs && s.jobs[j].state == Queued
    ensures var t := RetryStep(s, a, now).0; j in t.jobs && t.jobs[j] == s.jobs[j]
  {
  }

  lemma {:induction false} WaitingAlong(ws: seq<World>, i: nat, k: nat, j: Id, row: Job)
    requires i <= k < |ws| && Waits(ws[i].store, j, row)
    requires forall n | i <= n < k :: Waits(ws[n].store, j, row) ==> Waits(ws[n + 1].store, j, row)
    ensures Waits(ws[k].store, j, row)
  {
    if i < k {
      WaitingAlong(ws, i, k - 1, j, row);
    }
  }

  /** The queue is fair. A queued job keeps its row until it is taken. No claim takes it before it is available, and
      none that reads a later clock comes back empty or with a job created after it. */
  lemma NobodyOvertakes(sha: Bytes -> Digest, ws: seq<World>, es: seq<Event>, i: nat, k: nat, j: Id)
    requires IsRun(sha, ws, es) && i <= k < |es| && j in ws[i].store.jobs && ws[i].store.jobs[j].state == Queued
    requires es[k].Claim? && forall n | i <= n < k :: !Takes(ws, es, n, j)
    ensures var row, s := ws[i].store.jobs[j], ws[k].store;
      var h := ClaimStep(s, es[k].now, es[k].timeout, es[k].token).1;
      && Waits(s, j, row)
      && (es[k].now < row.availableAt ==> !Takes(ws, es, k, j))
      && (es[k].now >= row.availableAt ==>
            && h.Some? && h.value.job in s.jobs
            && var first := s.jobs[h.value.job];
            first.createdAt < row.createdAt || (first.createdAt == row.createdAt && h.value.job <= j))
  {
    var row := ws[i].store.jobs[j];
    forall n | i <= n < k && Waits(ws[n].store, j, row) ensures Waits(ws[n + 1].store, j, row) {
      InvariantHolds(sha, ws, es, n);
      assert !Takes(ws, es, n, j);
      WaitingStep(sha, ws[n], es[n], j, row);
    }
    WaitingAlong(ws, i, k, j, row);
    InvariantHolds(sha, ws, es, k);
    ClaimTakesFirst(ws[k].store, es[k].now, es[k].timeout, es[k].token);
    assert Takeable(row, es[k].now) <==> es[k].now >= row.availableAt;
  }

  /** A reported failure that leaves attempts is tried again: not before the back-off is over, and afterwards as fairly
      as any other job. */
  lemma FailureIsTriedAgain(sha: Bytes -> Digest, ws: seq<World>, es: seq<Event>, i: nat, k: nat)
    requires IsRun(sha, ws, es) && i < k < |es| && es[i].Finish? && es[i].verdict.payload.Failure? && es[k].Claim?
    requires FinishStep(sha, ws[i].store, es[i].verdict).1 == Returned(true)
    ensures es[i].verdict.handle.job in ws[i].store.jobs
    ensures var v, j := es[i].verdict, es[i].verdict.handle.job;
      var job, h := ws[i].store.jobs[j], ClaimStep(ws[k].store, es[k].now, es[k].timeout, es[k].token).1;
      job.attempts < job.maxAttempts && (forall n | i < n < k :: !Takes(ws, es, n, j)) ==>
        && (es[k].now < v.now + Delay(job.attempts) ==> !Takes(ws, es, k, j))
        && (es[k].now >= v.now + Delay(job.attempts) ==> h.Some?)
  {
    var v, j := es[i].verdict, es[i].verdict.handle.job;
    assert Enabled(ws[i], es[i]) && ws[i + 1] == Step(sha, ws[i], es[i]);
    InvariantHolds(sha, ws, es, i);
    FailureGivesJobBack(sha, ws[i].store, v);
    var job := ws[i].store.jobs[j];
    if job.attempts < job.maxAttempts && forall n | i < n < k :: !Takes(ws, es, n, j) {
      NobodyOvertakes(sha, ws, es, i + 1, k, j);
    }
  }

  /** An accepted upload is never forgotten: from its commit on, until its job is taken, every claim finds a job. */
  lemma UploadWaitsItsTurn(sha: Bytes -> Digest, ws: seq<World>, es: seq<Event>, i: nat, k: nat)
    requires IsRun(sha, ws, es) && i < k < |es| && es[i].Enqueue? && es[k].Claim? && es[k].now >= 0.0
    requires EnqueueStep(sha, ws[i].store, es[i].upload).0.jobs != ws[i].store.jobs
    requires forall n | i < n < k :: !Takes(ws, es, n, es[i].upload.jobId)
    ensures ClaimStep(ws[k].store, es[k].now, es[k].timeout, es[k].token).1.Some?
  {
    EnqueueAllOrNothing(sha, ws[i].store, es[i].upload);
    NobodyOvertakes(sha, ws, es, i + 1, k, es[i].upload.jobId);
  }
}
