/** The queue as the program runs it: tables and files updated in place, row by row, inside
    transactions that restore both when they do not commit. Every method is proved against the
    function of JobTables that gives its transaction. */
module JobService {
  import opened Common
  import opened EvidenceStore
  import opened JobTables

  class JobQueue {
    var jobs: map<Id, Job>
    var analyses: map<Id, Analysis>
    var attachments: map<Slot, Evidence>
    const storage: FileEvidenceStorage

    ghost function Contents(): Store
      reads this, storage
    {
      Store(jobs, analyses, attachments, storage.files)
    }

    constructor (storage: FileEvidenceStorage)
      requires storage.files == map[]
      ensures this.storage == storage && Contents() == EMPTY_STORE
    {
      this.storage := storage;
      jobs, analyses, attachments := map[], map[], map[];
    }

    /** Restores the tables and removes the new files: all of them after an exception, the first few
        when the process dies while removing them. */
    method Abort<T>(ghost before: Store, savedJobs: map<Id, Job>, savedAnalyses: map<Id, Analysis>,
                 savedAttachments: map<Slot, Evidence>, newFiles: seq<Id>,
                 ghost contents: seq<Option<Bytes>>, ghost keys: seq<Id>, fault: Fault, struck: bool)
      returns (r: Outcome<T, Error>)
      requires before == Store(savedJobs, savedAnalyses, savedAttachments, before.files)
      requires |contents| <= |keys| && |newFiles| <= |contents| && newFiles == keys[..|newFiles|]
      requires Writable(before.files, contents, keys, |newFiles|)
      requires storage.files == Written(before.files, contents, keys, |newFiles|)
      requires struck ==> !fault.NoFault? && |newFiles| == Reach(fault, |contents|)
      requires !struck ==> fault.NoFault? || !Writable(before.files, contents, keys, Reach(fault, |contents|))
      modifies this, storage
      ensures (Contents(), r) == Aborted(before, contents, keys, fault)
    {
      jobs, analyses, attachments := savedJobs, savedAnalyses, savedAttachments;
      if struck && fault.CrashAt? {
        storage.DeleteFirst(newFiles, Min(fault.deleted, |newFiles|));
        assert newFiles[..Min(fault.deleted, |newFiles|)] == keys[..Min(fault.deleted, |newFiles|)];
        return Crashed;
      }
      storage.DeleteFirst(newFiles, |newFiles|);
      assert newFiles[..|newFiles|] == keys[..|newFiles|];
      RollbackRestoresFiles(before.files, contents, keys, |newFiles|);
      r := Raised(StorageFault);
    }

    method FindPrevious(u: Upload) returns (r: Option<Id>)
      ensures r.None? ==> forall j :: !Replays(Contents(), u, j)
      ensures r.Some? ==> Replays(Contents(), u, r.value)
    {
      var todo := jobs.Keys;
      while todo != {}
        invariant forall j | Replays(Contents(), u, j) :: j in todo
        decreases todo
      {
        var j :| j in todo;
        if u.idempotencyKey.Some? && j in jobs && jobs[j].analysis in analyses
          && jobs[j].createdBy == u.user && jobs[j].idempotencyKey == u.idempotencyKey {
          return Some(j);
        }
        todo := todo - {j};
      }
      r := None;
    }

    method Enqueue(u: Upload) returns (r: Outcome<Id, Error>)
      requires Constraints(Contents())
      modifies this, storage
      ensures (Contents(), r) == EnqueueStep(storage.sha256, old(Contents()), u)
    {
      ghost var before := Contents();
      if u.idempotencyKey.Some? && (u.idempotencyKey.value == "" || |u.idempotencyKey.value| > 128) {
        return Raised(InvalidKey);
      }
      var digest := storage.sha256(u.raw);
      var savedJobs, savedAnalyses, savedAttachments := jobs, analyses, attachments;
      var previous := FindPrevious(u);
      if previous.Some? {
        PreviousIsUnique(before, u, previous.value);
        var row := analyses[jobs[previous.value].analysis];
        if row.sha256 != digest || (u.caseId.Some? && row.caseId != u.caseId) {
          return Raised(KeyReused);
        }
        return Returned(jobs[previous.value].analysis);
      }
      if u.caseId.Some? && !u.caseExists {
        return Raised(CaseNotFound);
      }
      if !u.guardAccepts {
        return Raised(GuardRejected);
      }
      ghost var contents, keys := [Some(u.raw)], [u.fileKey];
      assert Contents() == before;
      assert forall j :: !Replays(Contents(), u, j);
      if !u.fault.NoFault? && u.fault.after == 0 {
        r := Abort(before, savedJobs, savedAnalyses, savedAttachments, [], contents, keys, u.fault, true);
        return;
      }
      var item := storage.Put(u.fileKey, u.raw);
      if item.None? {
        r := Abort(before, savedJobs, savedAnalyses, savedAttachments, [], contents, keys, u.fault, false);
        return;
      }
      var newFiles := [u.fileKey];
      assert Written(before.files, contents, keys, 0) == before.files;
      if u.analysisId in analyses && u.fault.NoFault? {
        r := Abort(before, savedJobs, savedAnalyses, savedAttachments, newFiles, contents, keys, u.fault, false);
        return;
      }
      analyses := analyses[u.analysisId :=
        Analysis(u.caseId, u.filename, item.value.sha256, Queued, u.user, item.value.key, item.value.size, None)];
      if u.jobId in jobs && u.fault.NoFault? {
        r := Abort(before, savedJobs, savedAnalyses, savedAttachments, newFiles, contents, keys, u.fault, false);
        return;
      }
      jobs := jobs[u.jobId := Job(u.analysisId, Queued, 0, ClampAttempts(u.configuredAttempts), 0.0,
                                  None, None, u.now, u.user, u.idempotencyKey)];
      if !u.fault.NoFault? {
        r := Abort(before, savedJobs, savedAnalyses, savedAttachments, newFiles, contents, keys, u.fault, true);
        return;
      }
      r := Returned(u.analysisId);
    }

    /** Releases one expired row and gives its analysis the same state. `done` are the rows released before. */
    method RecoverRow(j: Id, ghost before: Store, ghost done: set<Id>)
      requires OnlyJobOf(before, j) && j !in done && Contents() == Release(before, done)
      modifies this
      ensures Contents() == Release(before, done + {j})
    {
      ReleaseOneMore(before, done, j);
      var job := jobs[j];
      var state := if job.attempts >= job.maxAttempts then Failed else Queued;
      jobs := jobs[j := job.(state := state, leaseToken := None, leaseUntil := None)];
      analyses := analyses[job.analysis := analyses[job.analysis].(status := state)];
    }

    /** Visits the expired rows one at a time. */
    method Recover(now: Clock)
      requires Constraints(Contents())
      modifies this
      ensures Contents() == RecoverStep(old(Contents()), now)
    {
      ghost var before := Contents();
      var todo := set j | j in jobs && Expired(jobs[j], now);
      ghost var done: set<Id> := {};
      ReleaseNone(before);
      while todo != {}
        invariant done !! todo && done + todo == ExpiredJobs(before.jobs, now)
        invariant Contents() == Release(before, done)
        decreases todo
      {
        var j :| j in todo;
        assert j in ExpiredJobs(before.jobs, now) && OnlyJobOf(before, j);
        RecoverRow(j, before, done);
        done := done + {j};
        todo := todo - {j};
      }
      assert done == ExpiredJobs(before.jobs, now);
    }

    /** Goes through the ready jobs and keeps the first by creation time, then id. */
    method SelectNext(now: Clock) returns (r: Option<Id>)
      ensures r == Next(jobs, now)
    {
      var todo := set j | j in jobs && Ready(jobs[j], now);
      ghost var ready := todo;
      r := None;
      while todo != {}
        invariant todo <= ready
        invariant r.None? ==> todo == ready
        invariant r.Some? ==> r.value in ready && forall k | k in ready - todo :: Precedes(jobs, r.value, k)
        decreases todo
      {
        var j :| j in todo;
        if r.None? || Precedes(jobs, j, r.value) {
          r := Some(j);
        }
        assert ready - (todo - {j}) == (ready - todo) + {j};
        todo := todo - {j};
      }
      NextIsOldestReady(jobs, now);
      if r.Some? {
        assert forall k | k in jobs && Ready(jobs[k], now) :: k in ready;
        NextIsUnique(jobs, now, r.value);
      } else {
        assert forall k | k in jobs && Ready(jobs[k], now) :: k in ready;
      }
    }

    method Claim(now: Clock, timeout: int, token: Id) returns (r: Option<Handle>)
      requires Constraints(Contents())
      modifies this
      ensures (Contents(), r) == ClaimStep(old(Contents()), now, timeout, token)
    {
      Recover(now);
      var next := SelectNext(now);
      if next.None? {
        return None;
      }
      var job := jobs[next.value];
      var lease := now + timeout as real + 60.0;
      jobs := jobs[next.value := job.(state := Running, attempts := job.attempts + 1,
                                      leaseToken := Some(token), leaseUntil := Some(lease))];
      if job.analysis in analyses {
        analyses := analyses[job.analysis := analyses[job.analysis].(status := Running)];
      }
      r := Some(Handle(next.value, job.analysis, token));
    }

    method Finish(v: Verdict) returns (r: Outcome<bool, Error>)
      requires WellFormed(v)
      modifies this, storage
      ensures (Contents(), r) == FinishStep(storage.sha256, old(Contents()), v)
    {
      ghost var before := Contents();
      var savedJobs, savedAnalyses, savedAttachments := jobs, analyses, attachments;
      var h := v.handle;
      if !(h.job in jobs && jobs[h.job].state == Running && jobs[h.job].leaseToken == Some(h.token)
           && jobs[h.job].leaseUntil.Some? && jobs[h.job].leaseUntil.value >= v.now) {
        return Returned(false);
      }
      var current := jobs[h.job];
      if h.analysis !in analyses {
        return Raised(NotFound);
      }
      var row := analyses[h.analysis];
      match v.payload
      case Failure(_) =>
        var state := if current.attempts >= current.maxAttempts then Failed else Queued;
        jobs := jobs[h.job := current.(state := state, availableAt := v.now + Backoff(current.attempts),
                                       leaseToken := None, leaseUntil := None)];
        analyses := analyses[h.analysis := row.(status := state)];
        if !v.fault.NoFault? {
          r := Abort(before, savedJobs, savedAnalyses, savedAttachments, [], [], [], v.fault, true);
        } else {
          r := Returned(true);
        }
      case Document(subject, contents, keys) =>
        var newFiles, report, struck := StoreAttachments(h.analysis, contents, keys, v.fault);
        if |newFiles| < |contents| {
          r := Abort(before, savedJobs, savedAnalyses, savedAttachments, newFiles, contents, keys, v.fault, struck);
          return;
        }
        analyses := analyses[h.analysis := row.(status := Completed, result := Some(Report(subject, report)))];
        jobs := jobs[h.job := current.(state := Completed, leaseToken := None, leaseUntil := None)];
        if !v.fault.NoFault? {
          r := Abort(before, savedJobs, savedAnalyses, savedAttachments, newFiles, contents, keys, v.fault, true);
        } else {
          assert report == StoredReport(storage.sha256, subject, contents).attachments;
          r := Returned(true);
        }
    }

    /** The attachment loop of finish: decode, store, remember the key for rollback, record the row.
        It stops early at text that does not decode, at a key that is taken, or when a fault strikes. */
    method StoreAttachments(a: Id, contents: seq<Option<Bytes>>, keys: seq<Id>, fault: Fault)
      returns (newFiles: seq<Id>, report: seq<Metadata>, struck: bool)
      requires |contents| <= |keys|
      modifies this`attachments, storage
      ensures |newFiles| <= |contents| && newFiles == keys[..|newFiles|]
      ensures Writable(old(storage.files), contents, keys, |newFiles|)
      ensures storage.files == Written(old(storage.files), contents, keys, |newFiles|)
      ensures attachments == AttachmentRows(storage.sha256, old(attachments), a, contents, keys, |newFiles|)
      ensures |report| == |newFiles| && forall i | 0 <= i < |report| ::
        report[i] == Metadata(|contents[i].value|, storage.sha256(contents[i].value))
      ensures |newFiles| <= Reach(fault, |contents|)
      ensures struck <==> |newFiles| < |contents| && !fault.NoFault? && |newFiles| == fault.after
      ensures |newFiles| < |contents| && !struck ==> !Writable(old(storage.files), contents, keys, |newFiles| + 1)
    {
      newFiles, report, struck := [], [], false;
      ghost var files := storage.files;
      var index := 0;
      while index < |contents|
        invariant index == |newFiles| == |report| <= Reach(fault, |contents|)
        invariant newFiles == keys[..index]
        invariant Writable(files, contents, keys, index)
        invariant storage.files == Written(files, contents, keys, index)
        invariant attachments == AttachmentRows(storage.sha256, old(attachments), a, contents, keys, index)
        invariant forall i | 0 <= i < index ::
          report[i] == Metadata(|contents[i].value|, storage.sha256(contents[i].value))
      {
        if !fault.NoFault? && fault.after == index {
          struck := true;
          return;
        }
        var evidence := StoreOne(files, contents, keys, index);
        if evidence.None? {
          return;
        }
        newFiles := newFiles + [evidence.value.key];
        report := report + [Metadata(evidence.value.size, evidence.value.sha256)];
        attachments := attachments[Slot(a, index) := evidence.value];
        index := index + 1;
      }
    }

    /** Decodes and stores one attachment; None when its text does not decode or its key is taken. */
    method StoreOne(ghost files: Files, contents: seq<Option<Bytes>>, keys: seq<Id>, index: nat)
      returns (r: Option<Evidence>)
      requires index < |contents| <= |keys| && Writable(files, contents, keys, index)
      requires storage.files == Written(files, contents, keys, index)
      modifies storage
      ensures r.Some? <==> Writable(files, contents, keys, index + 1)
      ensures r.Some? ==>
        && r.value == AttachmentRow(storage.sha256, contents, keys, index)
        && storage.files == Written(files, contents, keys, index + 1)
      ensures r.None? ==> storage.files == old(storage.files)
    {
      if contents[index].None? {
        return None;
      }
      WrittenExactly(files, contents, keys, index);
      r := storage.Put(keys[index], contents[index].value);
    }

    method Retry(analysis: Id, now: Clock) returns (r: Outcome<(), Error>)
      modifies this
      ensures (Contents(), r) == RetryStep(old(Contents()), analysis, now)
    {
      if analysis !in analyses {
        return Raised(NotFound);
      }
      if analyses[analysis].status != Failed {
        return Raised(NotFailed);
      }
      jobs := map j | j in jobs ::
        if jobs[j].analysis != analysis then jobs[j]
        else jobs[j].(state := Queued, attempts := 0, availableAt := now, leaseToken := None, leaseUntil := None);
      analyses := analyses[analysis := analyses[analysis].(status := Queued)];
      assert jobs == RetryStep(old(Contents()), analysis, now).0.jobs;
      r := Returned(());
    }
  }

  lemma PreviousIsUnique(s: Store, u: Upload, j: Id)
    requires Constraints(s) && Replays(s, u, j)
    ensures forall k | Replays(s, u, k) :: k == j
  {
    forall k | Replays(s, u, k) ensures k == j {
      assert SameKey(s.jobs[k], s.jobs[j]);
    }
  }
}
