/** The queue's tables, and what each transaction of backend/investigation/jobs.py (and the retry
    route of backend/investigation/api.py) does to them, as functions on table contents. */
module JobTables {
  import opened Common
  import opened EvidenceStore

  datatype Status = Queued | Running | Completed | Failed

  /** A row of `jobs`. The two lease columns are separate nullable columns, as in the schema. */
  datatype Job = Job(
    analysis: Id, state: Status, attempts: nat, maxAttempts: nat, availableAt: Clock,
    leaseToken: Option<Id>, leaseUntil: Option<Clock>, createdAt: Clock,
    createdBy: Id, idempotencyKey: Option<string>)

  datatype Metadata = Metadata(size: nat, sha256: Digest)

  /** The stored report: raw attachment bytes are replaced by their size and digest. */
  datatype Report = Report(subject: string, attachments: seq<Metadata>)

  datatype Analysis = Analysis(
    caseId: Option<Id>, filename: string, sha256: Digest, status: Status,
    createdBy: Id, sourceRef: Id, size: nat, result: Option<Report>)

  /** Primary key of `evidence_attachments`. */
  datatype Slot = Slot(analysis: Id, position: nat)

  datatype Store = Store(
    jobs: map<Id, Job>, analyses: map<Id, Analysis>,
    attachments: map<Slot, Evidence>, files: Files)

  const EMPTY_STORE := Store(map[], map[], map[], map[])

  /** Where the environment interferes: an exception or the death of the process once `after`
      evidence files are written. A process may also die while it rolls back, with `deleted` of
      those files removed again. */
  datatype Fault = NoFault | RaiseAt(after: nat) | CrashAt(after: nat, deleted: nat)

  datatype Error = InvalidKey | KeyReused | CaseNotFound | GuardRejected | NotFound | NotFailed | StorageFault

  /** Arguments, drawn identifiers and environment of one call of enqueue. */
  datatype Upload = Upload(
    raw: Bytes, filename: string, user: Id, caseId: Option<Id>, idempotencyKey: Option<string>,
    now: Clock, configuredAttempts: int, caseExists: bool, guardAccepts: bool,
    fileKey: Id, analysisId: Id, jobId: Id, fault: Fault)

  /** What a worker keeps of the row it claimed. */
  datatype Handle = Handle(job: Id, analysis: Id, token: Id)

  /** The worker's verdict: an error, or a parsed document whose attachments are base64 text
      (None where that text does not decode). */
  datatype Payload =
    | Failure(error: string)
    | Document(subject: string, attachments: seq<Option<Bytes>>, keys: seq<Id>)

  datatype Verdict = Verdict(handle: Handle, now: Clock, payload: Payload, fault: Fault)

  predicate WellFormed(v: Verdict) {
    v.payload.Document? ==> |v.payload.attachments| <= |v.payload.keys|
  }

  function ClampAttempts(configured: int): nat {
    if configured < 1 then 1 else if configured > 10 then 10 else configured
  }

  function Power2(n: nat): nat {
    if n == 0 then 1 else 2 * Power2(n - 1)
  }

  function Backoff(attempts: nat): real {
    if Power2(attempts) < 60 then Power2(attempts) as real else 60.0
  }

  /* ---- SQL constraints: foreign key, UNIQUE(analysis_id), UNIQUE(created_by, idempotency_key) ---- */

  ghost predicate Constraints(s: Store) {
    && (forall j | j in s.jobs :: s.jobs[j].analysis in s.analyses)
    && (forall j, k | j in s.jobs && k in s.jobs && s.jobs[j].analysis == s.jobs[k].analysis :: j == k)
    && (forall j, k | j in s.jobs && k in s.jobs && SameKey(s.jobs[j], s.jobs[k]) :: j == k)
  }

  ghost predicate SameKey(a: Job, b: Job) {
    a.createdBy == b.createdBy && a.idempotencyKey.Some? && a.idempotencyKey == b.idempotencyKey
  }

  /* ---- A group of writes that commits, raises or dies as a whole ---- */

  function Min(a: nat, b: nat): nat { if a < b then a else b }

  /** How many of n writes are attempted before the fault strikes. */
  function Reach(fault: Fault, n: nat): nat {
    if fault.NoFault? then n else Min(fault.after, n)
  }

  /** What is left on disk when the transaction does not commit. */
  ghost function Aborted<T>(s: Store, contents: seq<Option<Bytes>>, keys: seq<Id>, fault: Fault): (Store, Outcome<T, Error>)
    requires |contents| <= |keys|
  {
    var n := Reach(fault, |contents|);
    if fault.CrashAt? && Writable(s.files, contents, keys, n) then
      (s.(files := Written(s.files, contents, keys, n) - KeySet(keys[..Min(fault.deleted, n)])), Crashed)
    else
      (s, Raised(StorageFault))
  }

  /* ---- enqueue ---- */

  predicate Replays(s: Store, u: Upload, j: Id) {
    && u.idempotencyKey.Some? && j in s.jobs && s.jobs[j].analysis in s.analyses
    && s.jobs[j].createdBy == u.user && s.jobs[j].idempotencyKey == u.idempotencyKey
  }

  predicate SameUpload(a: Analysis, u: Upload, digest: Digest) {
    a.sha256 == digest && (u.caseId.Some? ==> a.caseId == u.caseId)
  }

  function NewJob(u: Upload): Job {
    Job(u.analysisId, Queued, 0, ClampAttempts(u.configuredAttempts), 0.0, None, None, u.now, u.user, u.idempotencyKey)
  }

  function NewAnalysis(u: Upload, digest: Digest): Analysis {
    Analysis(u.caseId, u.filename, digest, Queued, u.user, u.fileKey, |u.raw|, None)
  }

  /** A new upload commits when nothing interferes and no drawn identifier is taken. */
  ghost predicate Commits(s: Store, u: Upload) {
    u.fault.NoFault? && u.fileKey !in s.files && u.analysisId !in s.analyses && u.jobId !in s.jobs
  }

  function Uploaded(sha: Bytes -> Digest, s: Store, u: Upload): Store {
    Store(s.jobs[u.jobId := NewJob(u)],
          s.analyses[u.analysisId := NewAnalysis(u, sha(u.raw))],
          s.attachments,
          s.files[u.fileKey := u.raw])
  }

  ghost function EnqueueStep(sha: Bytes -> Digest, s: Store, u: Upload): (Store, Outcome<Id, Error>) {
    if u.idempotencyKey.Some? && (u.idempotencyKey.value == "" || |u.idempotencyKey.value| > 128) then
      (s, Raised(InvalidKey))
    else if exists j :: Replays(s, u, j) then
      var j :| Replays(s, u, j);
      if SameUpload(s.analyses[s.jobs[j].analysis], u, sha(u.raw))
      then (s, Returned(s.jobs[j].analysis))
      else (s, Raised(KeyReused))
    else if u.caseId.Some? && !u.caseExists then (s, Raised(CaseNotFound))
    else if !u.guardAccepts then (s, Raised(GuardRejected))
    else if Commits(s, u) then (Uploaded(sha, s, u), Returned(u.analysisId))
    else Aborted(s, [Some(u.raw)], [u.fileKey], u.fault)
  }

  /* ---- recover and claim ---- */

  predicate Expired(job: Job, now: Clock) {
    job.state == Running && job.leaseUntil.Some? && job.leaseUntil.value < now
  }

  function AfterFailure(job: Job): Status {
    if job.attempts >= job.maxAttempts then Failed else Queued
  }

  function Released(job: Job): Job {
    job.(state := AfterFailure(job), leaseToken := None, leaseUntil := None)
  }

  ghost function ReleasedJobsOf(jobs: map<Id, Job>, released: set<Id>, a: Id): set<Id> {
    set j | j in released && j in jobs && jobs[j].analysis == a
  }

  ghost function PickOne(s: set<Id>): Id
    requires s != {}
  {
    var x :| x in s; x
  }

  ghost function ReleasedStatus(jobs: map<Id, Job>, released: set<Id>, a: Id, status: Status): Status {
    var js := ReleasedJobsOf(jobs, released, a);
    if js == {} then status else AfterFailure(jobs[PickOne(js)])
  }

  /** Some running jobs lose their lease, all at once, and their analyses follow. */
  ghost function Release(s: Store, released: set<Id>): Store {
    s.(jobs := map j | j in s.jobs :: if j in released then Released(s.jobs[j]) else s.jobs[j],
       analyses := map a | a in s.analyses ::
         s.analyses[a].(status := ReleasedStatus(s.jobs, released, a, s.analyses[a].status)))
  }

  ghost function ExpiredJobs(jobs: map<Id, Job>, now: Clock): set<Id> {
    set j | j in jobs && Expired(jobs[j], now)
  }

  ghost function RecoverStep(s: Store, now: Clock): Store {
    Release(s, ExpiredJobs(s.jobs, now))
  }

  predicate Ready(job: Job, now: Clock) {
    job.state == Queued && job.availableAt <= now
  }

  /** By creation time, then by id. */
  predicate Precedes(jobs: map<Id, Job>, j: Id, k: Id)
    requires j in jobs && k in jobs
  {
    jobs[j].createdAt < jobs[k].createdAt || (jobs[j].createdAt == jobs[k].createdAt && j <= k)
  }

  ghost predicate IsNext(jobs: map<Id, Job>, now: Clock, j: Id) {
    && j in jobs && Ready(jobs[j], now)
    && forall k | k in jobs && Ready(jobs[k], now) :: Precedes(jobs, j, k)
  }

  ghost function Next(jobs: map<Id, Job>, now: Clock): Option<Id> {
    if exists j :: IsNext(jobs, now, j) then var j :| IsNext(jobs, now, j); Some(j) else None
  }

  function LeaseEnd(now: Clock, timeout: int): Clock {
    now + timeout as real + 60.0
  }

  function Leased(job: Job, now: Clock, timeout: int, token: Id): Job {
    job.(state := Running, attempts := job.attempts + 1,
         leaseToken := Some(token), leaseUntil := Some(LeaseEnd(now, timeout)))
  }

  function WithStatus(analyses: map<Id, Analysis>, a: Id, status: Status): map<Id, Analysis> {
    if a in analyses then analyses[a := analyses[a].(status := status)] else analyses
  }

  function WithLease(s: Store, j: Id, now: Clock, timeout: int, token: Id): Store
    requires j in s.jobs
  {
    s.(jobs := s.jobs[j := Leased(s.jobs[j], now, timeout, token)],
       analyses := WithStatus(s.analyses, s.jobs[j].analysis, Running))
  }

  ghost function ClaimStep(s: Store, now: Clock, timeout: int, token: Id): (Store, Option<Handle>) {
    var r := RecoverStep(s, now);
    match Next(r.jobs, now)
    case None => (r, None)
    case Some(j) => (WithLease(r, j, now, timeout, token), Some(Handle(j, r.jobs[j].analysis, token)))
  }

  /* ---- finish ---- */

  predicate Holds(s: Store, h: Handle, now: Clock) {
    && h.job in s.jobs && s.jobs[h.job].state == Running
    && s.jobs[h.job].leaseToken == Some(h.token)
    && s.jobs[h.job].leaseUntil.Some? && now <= s.jobs[h.job].leaseUntil.value
  }

  function FailedStore(s: Store, h: Handle, now: Clock): Store
    requires h.job in s.jobs && h.analysis in s.analyses
  {
    var job := s.jobs[h.job];
    s.(jobs := s.jobs[h.job := Released(job).(availableAt := now + Backoff(job.attempts))],
       analyses := s.analyses[h.analysis := s.analyses[h.analysis].(status := AfterFailure(job))])
  }

  /** Attachment i is recorded under the key that holds its bytes. */
  ghost function AttachmentRow(sha: Bytes -> Digest, contents: seq<Option<Bytes>>, keys: seq<Id>, i: nat): Evidence
    requires i < |contents| <= |keys| && contents[i].Some?
  {
    Evidence(keys[i], sha(contents[i].value), |contents[i].value|)
  }

  ghost predicate AllDecode(contents: seq<Option<Bytes>>) {
    forall i | 0 <= i < |contents| :: contents[i].Some?
  }

  ghost function StoredReport(sha: Bytes -> Digest, subject: string, contents: seq<Option<Bytes>>): Report
    requires AllDecode(contents)
  {
    Report(subject, seq(|contents|, i requires 0 <= i < |contents| && contents[i].Some? =>
      Metadata(|contents[i].value|, sha(contents[i].value))))
  }

  ghost function AttachmentRows(sha: Bytes -> Digest, rows: map<Slot, Evidence>, a: Id,
                                contents: seq<Option<Bytes>>, keys: seq<Id>, n: nat): map<Slot, Evidence>
    requires n <= |contents| <= |keys| && forall i | 0 <= i < n :: contents[i].Some?
  {
    if n == 0 then rows
    else AttachmentRows(sha, rows, a, contents, keys, n - 1)[Slot(a, n - 1) := AttachmentRow(sha, contents, keys, n - 1)]
  }

  ghost function CompletedStore(sha: Bytes -> Digest, s: Store, h: Handle, subject: string,
                                contents: seq<Option<Bytes>>, keys: seq<Id>): Store
    requires h.job in s.jobs && h.analysis in s.analyses && |contents| <= |keys|
    requires Writable(s.files, contents, keys, |contents|)
  {
    Store(
      s.jobs[h.job := s.jobs[h.job].(state := Completed, leaseToken := None, leaseUntil := None)],
      s.analyses[h.analysis := s.analyses[h.analysis].(status := Completed, result := Some(StoredReport(sha, subject, contents)))],
      AttachmentRows(sha, s.attachments, h.analysis, contents, keys, |contents|),
      Written(s.files, contents, keys, |contents|))
  }

  ghost function FinishStep(sha: Bytes -> Digest, s: Store, v: Verdict): (Store, Outcome<bool, Error>)
    requires WellFormed(v)
  {
    if !Holds(s, v.handle, v.now) then (s, Returned(false))
    else if v.handle.analysis !in s.analyses then (s, Raised(NotFound))
    else match v.payload
      case Failure(_) =>
        if v.fault.NoFault? then (FailedStore(s, v.handle, v.now), Returned(true))
        else Aborted(s, [], [], v.fault)
      case Document(subject, contents, keys) =>
        if v.fault.NoFault? && Writable(s.files, contents, keys, |contents|)
        then (CompletedStore(sha, s, v.handle, subject, contents, keys), Returned(true))
        else Aborted(s, contents, keys, v.fault)
  }

  /* ---- manual retry ---- */

  ghost function RetryStep(s: Store, a: Id, now: Clock): (Store, Outcome<(), Error>) {
    if a !in s.analyses then (s, Raised(NotFound))
    else if s.analyses[a].status != Failed then (s, Raised(NotFailed))
    else
      (s.(jobs := map j | j in s.jobs ::
            if s.jobs[j].analysis == a
            then s.jobs[j].(state := Queued, attempts := 0, availableAt := now, leaseToken := None, leaseUntil := None)
            else s.jobs[j],
          analyses := s.analyses[a := s.analyses[a].(status := Queued)]),
       Returned(()))
  }

  /* ---- What the specification functions mean ---- */

  /** enqueue either commits the upload whole or leaves every table as it was; without a crash it
      leaves every file as it was too. */
  lemma EnqueueAllOrNothing(sha: Bytes -> Digest, s: Store, u: Upload)
    ensures var t := EnqueueStep(sha, s, u).0;
      || (t == Uploaded(sha, s, u) && Commits(s, u) && !exists j :: Replays(s, u, j))
      || (t == s.(files := t.files) && (!u.fault.CrashAt? ==> t == s)
          && forall k | k in s.files :: k in t.files && t.files[k] == s.files[k])
  {
    AbortedGrowsFiles<Id>(s, [Some(u.raw)], [u.fileKey], u.fault);
  }

  ghost predicate SameUpToState(s: Store, t: Store) {
    && t.jobs.Keys == s.jobs.Keys && t.analyses.Keys == s.analyses.Keys
    && (forall j | j in s.jobs :: SameOrigin(s.jobs[j], t.jobs[j]))
    && (forall a | a in s.analyses :: t.analyses[a].(status := Queued, result := None) == s.analyses[a].(status := Queued, result := None))
  }

  predicate SameOrigin(a: Job, b: Job) {
    && b.analysis == a.analysis && b.maxAttempts == a.maxAttempts && b.createdAt == a.createdAt
    && b.createdBy == a.createdBy && b.idempotencyKey == a.idempotencyKey
  }

  /** Two stores that differ in states, leases and attempt counters alone. */
  ghost predicate SameEvidenceRows(s: Store, t: Store) {
    && SameUpToState(s, t) && t.files == s.files && t.attachments == s.attachments
    && (forall a | a in s.analyses :: t.analyses[a].result == s.analyses[a].result)
  }

  lemma RecoverEffect(s: Store, now: Clock)
    ensures var t := RecoverStep(s, now);
      SameEvidenceRows(s, t) && forall j | j in s.jobs :: t.jobs[j].attempts == s.jobs[j].attempts
  {
  }

  lemma LeaseEffect(s: Store, j: Id, now: Clock, timeout: int, token: Id)
    requires j in s.jobs
    ensures var t := WithLease(s, j, now, timeout, token);
      SameEvidenceRows(s, t)
      && forall k | k in s.jobs :: t.jobs[k].attempts == s.jobs[k].attempts + if k == j then 1 else 0
  {
  }

  lemma SameEvidenceRowsTransitive(s: Store, t: Store, u: Store)
    requires SameEvidenceRows(s, t) && SameEvidenceRows(t, u)
    ensures SameEvidenceRows(s, u)
  {
    forall j | j in s.jobs ensures SameOrigin(s.jobs[j], u.jobs[j]) {
      assert SameOrigin(s.jobs[j], t.jobs[j]) && SameOrigin(t.jobs[j], u.jobs[j]);
    }
  }

  /** claim touches states, leases and one attempt counter: never a result, an attachment or a file. */
  lemma ClaimEffect(s: Store, now: Clock, timeout: int, token: Id)
    ensures var (t, handle) := ClaimStep(s, now, timeout, token);
      && SameEvidenceRows(s, t)
      && (handle.Some? ==> handle.value.job in s.jobs)
      && (forall j | j in s.jobs ::
            t.jobs[j].attempts == s.jobs[j].attempts + if handle.Some? && handle.value.job == j then 1 else 0)
  {
    var r := RecoverStep(s, now);
    RecoverEffect(s, now);
    NextIsOldestReady(r.jobs, now);
    match Next(r.jobs, now)
    case None =>
    case Some(j) =>
      LeaseEffect(r, j, now, timeout, token);
      SameEvidenceRowsTransitive(s, r, WithLease(r, j, now, timeout, token));
  }

  /** An accepted retry queues the jobs of one failed analysis afresh; a refused one changes nothing. */
  lemma RetryEffect(s: Store, a: Id, now: Clock)
    ensures var (t, outcome) := RetryStep(s, a, now);
      && SameUpToState(s, t) && t.files == s.files && t.attachments == s.attachments
      && (forall b | b in s.analyses :: t.analyses[b].result == s.analyses[b].result)
      && (forall b | b in s.analyses && s.analyses[b].status != Failed :: t.analyses[b] == s.analyses[b])
      && (!outcome.Returned? ==> t == s)
  {
  }

  /** A finish that commits changes its own job and its own analysis, and no other row. */
  lemma FinishEffect(sha: Bytes -> Digest, s: Store, v: Verdict)
    requires WellFormed(v)
    ensures var (t, outcome) := FinishStep(sha, s, v);
      && SameUpToState(s, t)
      && (forall j | j in s.jobs :: t.jobs[j].attempts == s.jobs[j].attempts)
      && (outcome != Returned(true) ==> t.jobs == s.jobs && t.analyses == s.analyses && t.attachments == s.attachments)
      && (outcome == Returned(true) ==> Holds(s, v.handle, v.now) && v.handle.analysis in s.analyses)
      && (outcome == Returned(true) ==>
            forall a | a in s.analyses && a != v.handle.analysis :: t.analyses[a] == s.analyses[a])
  {
    FinishAllOrNothing(sha, s, v);
  }

  /** finish either commits, or refuses or aborts with every table as it was; without a crash no
      file changes either. */
  lemma FinishAllOrNothing(sha: Bytes -> Digest, s: Store, v: Verdict)
    requires WellFormed(v)
    ensures var (t, outcome) := FinishStep(sha, s, v);
      || outcome == Returned(true)
      || (t == s.(files := t.files) && (!v.fault.CrashAt? ==> t == s)
          && forall k | k in s.files :: k in t.files && t.files[k] == s.files[k])
  {
    if v.payload.Document? {
      AbortedGrowsFiles<bool>(s, v.payload.attachments, v.payload.keys, v.fault);
    } else {
      AbortedGrowsFiles<bool>(s, [], [], v.fault);
    }
  }

  /** Rolling back, or dying half-way, never touches an existing file. */
  lemma AbortedGrowsFiles<T>(s: Store, contents: seq<Option<Bytes>>, keys: seq<Id>, fault: Fault)
    requires |contents| <= |keys|
    ensures var t := Aborted<T>(s, contents, keys, fault).0;
      && t == s.(files := t.files)
      && (forall k | k in s.files :: k in t.files && t.files[k] == s.files[k])
      && (!fault.CrashAt? ==> t == s)
  {
    var n := Reach(fault, |contents|);
    if fault.CrashAt? && Writable(s.files, contents, keys, n) {
      CrashOnlyAddsFiles(s.files, contents, keys, n, Min(fault.deleted, n));
    }
  }

  lemma NextIsUnique(jobs: map<Id, Job>, now: Clock, j: Id)
    requires IsNext(jobs, now, j)
    ensures Next(jobs, now) == Some(j)
  {
    var k := Next(jobs, now).value;
    assert Precedes(jobs, j, k) && Precedes(jobs, k, j);
  }

  /** A minimum over any finite non-empty set of ready jobs exists. */
  lemma {:induction false} MinimumExists(jobs: map<Id, Job>, among: set<Id>) returns (m: Id)
    requires among != {} && among <= jobs.Keys
    ensures m in among && forall k | k in among :: Precedes(jobs, m, k)
    decreases |among|
  {
    var x :| x in among;
    m := x;
    if among != {x} {
      var y := MinimumExists(jobs, among - {x});
      m := if Precedes(jobs, x, y) then x else y;
      forall k | k in among ensures Precedes(jobs, m, k) {
        assert k == x || k in among - {x};
      }
    }
  }

  /** claim finds nothing exactly when no job is ready; otherwise it takes the oldest ready job. */
  lemma NextIsOldestReady(jobs: map<Id, Job>, now: Clock)
    ensures Next(jobs, now).None? <==> forall k | k in jobs :: !Ready(jobs[k], now)
    ensures Next(jobs, now).Some? ==> IsNext(jobs, now, Next(jobs, now).value)
  {
    var ready := set k | k in jobs && Ready(jobs[k], now);
    if ready != {} {
      var m := MinimumExists(jobs, ready);
      assert IsNext(jobs, now, m);
    } else {
      forall k | k in jobs ensures !Ready(jobs[k], now) {
        assert k !in ready;
      }
    }
  }

  /** An accepted retry puts its jobs back in the queue: a claim from then on finds one to take. Asking again before
      that is refused. */
  lemma RetriedAnalysisIsClaimable(s: Store, a: Id, now: Clock, j: Id, clock: Clock, timeout: int, token: Id)
    requires RetryStep(s, a, now).1.Returned? && j in s.jobs && s.jobs[j].analysis == a && clock >= now
    ensures var u := RetryStep(s, a, now).0;
      ClaimStep(u, clock, timeout, token).1.Some? && RetryStep(u, a, clock) == (u, Raised(NotFailed))
  {
    var u := RetryStep(s, a, now).0;
    var r := RecoverStep(u, clock);
    assert Ready(r.jobs[j], clock);
    NextIsOldestReady(r.jobs, clock);
  }

  /** finish adds exactly one attachment row per attachment, and changes no other row. */
  lemma {:induction false} AttachmentRowsExactly(sha: Bytes -> Digest, rows: map<Slot, Evidence>, a: Id,
                                                 contents: seq<Option<Bytes>>, keys: seq<Id>, n: nat)
    requires n <= |contents| <= |keys| && forall i | 0 <= i < n :: contents[i].Some?
    ensures var after := AttachmentRows(sha, rows, a, contents, keys, n);
      && (forall p :: p in after <==> p in rows || (p.analysis == a && p.position < n))
      && (forall i | 0 <= i < n :: after[Slot(a, i)] == AttachmentRow(sha, contents, keys, i))
      && (forall p | p in rows && !(p.analysis == a && p.position < n) :: after[p] == rows[p])
  {
    if n > 0 {
      AttachmentRowsExactly(sha, rows, a, contents, keys, n - 1);
    }
  }

  ghost predicate OnlyJobOf(s: Store, j: Id) {
    j in s.jobs && s.jobs[j].analysis in s.analyses
    && forall k | k in s.jobs && s.jobs[k].analysis == s.jobs[j].analysis :: k == j
  }

  /** Recovery gives the analysis of an expired job that job's new state. */
  lemma RecoveredStatusOfJob(s: Store, now: Clock, j: Id)
    requires OnlyJobOf(s, j)
    ensures RecoverStep(s, now).analyses[s.jobs[j].analysis].status ==
      if Expired(s.jobs[j], now) then AfterFailure(s.jobs[j]) else s.analyses[s.jobs[j].analysis].status
  {
    var js := ReleasedJobsOf(s.jobs, ExpiredJobs(s.jobs, now), s.jobs[j].analysis);
    assert js == if Expired(s.jobs[j], now) then {j} else {};
  }

  lemma ReleasedStatusOneMore(s: Store, released: set<Id>, j: Id, b: Id)
    requires OnlyJobOf(s, j) && j !in released && b in s.analyses
    ensures ReleasedStatus(s.jobs, released + {j}, b, s.analyses[b].status) ==
      if b == s.jobs[j].analysis then AfterFailure(s.jobs[j])
      else ReleasedStatus(s.jobs, released, b, s.analyses[b].status)
  {
    if b == s.jobs[j].analysis {
      assert ReleasedJobsOf(s.jobs, released + {j}, b) == {j};
    } else {
      assert ReleasedJobsOf(s.jobs, released + {j}, b) == ReleasedJobsOf(s.jobs, released, b);
    }
  }

  /** Releasing one more job is one row update in each table. */
  lemma ReleaseOneMore(s: Store, released: set<Id>, j: Id)
    requires OnlyJobOf(s, j) && j !in released
    ensures var r, a := Release(s, released), s.jobs[j].analysis;
      && r.jobs[j] == s.jobs[j] && a in r.analyses
      && Release(s, released + {j}) ==
         r.(jobs := r.jobs[j := Released(s.jobs[j])],
            analyses := r.analyses[a := r.analyses[a].(status := AfterFailure(s.jobs[j]))])
  {
    var r, a := Release(s, released), s.jobs[j].analysis;
    forall b | b in s.analyses { ReleasedStatusOneMore(s, released, j, b); }
    assert Release(s, released + {j}).jobs == r.jobs[j := Released(s.jobs[j])];
    assert Release(s, released + {j}).analyses == r.analyses[a := r.analyses[a].(status := AfterFailure(s.jobs[j]))];
  }

  lemma ReleaseNone(s: Store)
    ensures Release(s, {}) == s
  {
    assert Release(s, {}).jobs == s.jobs;
    assert Release(s, {}).analyses == s.analyses;
  }
}
