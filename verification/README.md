# PhishCase protocols in Dafny

A model of the transactional protocols and exact algorithms of the PhishCase backend, with proofs of what they
promise. `dafny verify dfyconfig.toml` checks all of it.

Each route or worker transaction appears twice: as a method of a class that updates tables held in its fields, the
way the Python code updates SQLite, and as a function from the tables before to the tables after. The methods are
proved equal to the functions in every outcome, and runs are sequences of events of the functions in any order, so a
transaction is atomic and everything between two transactions (parsing, SMTP, DNS, a crash) may interleave in any way.
Clock readings are parameters and need not be ordered. Drawn identifiers and tokens are parameters too; a collision
with an existing key is the error the database raises. A crashed process is one that never takes its next step.

What a function means is said in two ways: over runs, and by lemmas that read its outcome off columns, constants and
characters, not in terms of the function's own guards (`JobLeases`, `ReplyRevisions`, `DkimNames`, `MfaAccess` and the
modules whose name ends in `Answers`).

| module | content |
|---|---|
| `Common` | options, bytes, identifiers, clock readings, outcomes of a transaction, letters |
| `EvidenceStore`, `JobTables`, `JobService`, `JobRuns`, `JobTheorems`, `JobLeases` | the durable job queue with fenced leases, and the evidence files that follow commit and rollback |
| `Replies`, `ReplyRuns`, `ReplyTheorems`, `ReplyRevisions` | sending a reply to a reporter: drafts, late transport results, reconciliation |
| `HttpBody` | bounded streaming of a provider response |
| `LikePattern` | search terms inside SQL LIKE |
| `DkimExchange`, `DkimTheorems`, `DkimNames` | the DKIM worker, the parent that resolves its keys, and the pipe between them |
| `Enrichments`, `EnrichmentRuns`, `EnrichmentAnswers` | reservation, replay, single pending check, recovery and late finalizers |
| `RateLimits` | the sliding window of provider calls and the fixed window of attempts |
| `Mfa`, `MfaService`, `MfaRuns`, `MfaTheorems`, `MfaAccess`, `MfaProvenance` | second factor: login, enrolment, guessing, one-time codes, recovery codes, sessions |
| `MimeLimits` | the worklist over MIME parts against the tree |
| `Campaigns`, `CampaignRuns`, `CampaignAnswers` | campaigns, memberships, decisions, the closure guard, revisions |
| `LegacyMigration`, `LegacyService` | projection of old cases onto campaigns |
| `BackupCipher`, `PathNames`, `BackupArchive` | encrypted backup files, member names, manifest and restoration |
| `ReceivedHops` | delays between Received headers |

Digests, AES-GCM, one-time codes, zlib and the DNS resolver are function parameters. For AES-GCM the parameter is a
key stream and a tag function; for zlib it is a byte-wise decoder under the documented `max_length` contract.

## Where the code differs from what is said of it

- Two transmissions of one reply need not be separated by a failure and an edit. A sender may reach the transport after
  its send was already reconciled as failed, edited and sent again; it may do so right before the new sender
  (`ReplyTheorems.LateTransmissionIsNotSeparated`) or right after it (`ReplyTheorems.SlowSenderComesSecond`). Send
  requests are always separated. Transmissions are separated exactly if the reply was unresolved at some moment from the
  first on and a draft again before the second (`ReplyTheorems.SeparatedIffRedrafted`). If the first was on time, its row
  still `sending` at the revision its send produced, that is exactly if the row has since moved three revisions beyond
  the one sent (`ReplyTheorems.SeparatedIffThreeRevisions`). If the second is on time and its send the next one requested,
  it is exactly if the first was on time (`ReplyTheorems.NextTransmissionSeparatedIff`).
- The DKIM worker's verdict is not always delivered. A key name whose request line exceeds 8192 bytes ends the exchange,
  and a signature that verifies is lost beside one with such a name, for example one with a selector of more than 8200
  characters (`DkimTheorems.VerifyingSignatureLost`, `DkimTheorems.LongSelectorLosesVerdict`). Delivery holds exactly
  when every request line fits (`DkimTheorems.DeliveredIff`).
- `docs/EMAIL_CAMPAIGNS.md` line 31 says that reopening a decision reopens the campaigns of the mail. The code leaves
  archived ones alone, so a campaign that is closed and archived can hold an undecided member
  (`CampaignRuns.ArchivedCampaignKeepsReopenedMember`).
- The minute limit of `docs/ENRICHMENTS.md` line 73 depends on the clock: a reading more than 3540 s ahead of a later
  one can make the pruning forget calls of the last minute. The limit holds in every run exactly if the clock never
  steps back by more than that (`RateLimits.LimitHoldsIff`).
- A fixed window lets through at most 2*limit-1 calls in an interval of its length, one less than twice the limit, and
  that many for some clock.
- A backup of a directory that holds a file with a backslash in its name, or a million files and more, is written without
  complaint and refused at restoration (`BackupArchive.RoundTrip`, `BackupArchive.BackslashIsRefused`).
- `decrypt_file` creates its destination exclusively, but inside the block that removes it after any exception: with a
  file already there the call fails and that file is gone (`BackupCipher.ExistingDestinationIsLost`). `restore` decrypts
  into a fresh directory, so it never meets this.

## Model

| member | source | states |
|---|---|---|
| `EvidenceStore.FileEvidenceStorage.Put` | backend/investigation/evidence.py:40-59 | stores the bytes under a key that was free and returns their digest and size; a key already taken is refused and its file left alone |
| `EvidenceStore.FileEvidenceStorage.Read` | backend/investigation/evidence.py:61-67 | returns the bytes only while they match the recorded digest |
| `EvidenceStore.FileEvidenceStorage.Delete` | backend/investigation/evidence.py:69-70 | removes just this key; a missing key is no error |
| `EvidenceStore.FileEvidenceStorage.DeleteFirst` | backend/investigation/jobs.py:28-36 | the rollback loop removes exactly the listed keys |
| `EvidenceStore.WrittenExactly` | backend/investigation/evidence.py:40-59 | after any number of puts every key holds its own content, older files are untouched and no other file appears |
| `EvidenceStore.RollbackRestoresFiles` | backend/investigation/jobs.py:28-36 | deleting the keys a failed transaction wrote restores the exact file set and contents |
| `EvidenceStore.CrashOnlyAddsFiles` | backend/investigation/jobs.py:28-36 | a process dying during the writes or during the rollback can only leave extra files |
| `JobTables.EnqueueAllOrNothing` | backend/investigation/jobs.py:63-126 | an upload commits its row, job and file together or leaves every table, and without a crash every file, as it was |
| `JobTables.ClaimEffect` | backend/investigation/jobs.py:129-172 | claiming, recovery included, touches no result, attachment row, file, key or owner, and spends an attempt of the claimed job only |
| `JobTables.NextIsOldestReady` | backend/investigation/jobs.py:154-157 | nothing is claimed exactly when no job is ready, and otherwise the ready job that is first by creation time and id |
| `JobTables.FinishEffect` | backend/investigation/jobs.py:243-312 | a committed verdict changes its own job and its own analysis and no other row |
| `JobTables.FinishAllOrNothing` | backend/investigation/jobs.py:243-312 | a verdict that is refused, raises or crashes leaves all tables as they were, and without a crash all files |
| `JobTables.RetryEffect` | backend/investigation/api.py:438-462 | an accepted manual retry requeues the jobs of one failed analysis with no attempts spent; a refused one changes nothing |
| `JobTables.RetriedAnalysisIsClaimable` | backend/investigation/api.py:438-462 | after an accepted retry a claim at that time or later finds a job to take; asking for the retry again before that is refused |
| `JobTables.AttachmentRowsExactly` | backend/investigation/jobs.py:269-279 | one evidence row per attachment, each with the digest and size of its own content, and no other row changed |
| `JobTables.RecoveredStatusOfJob` | backend/investigation/jobs.py:129-146 | recovery gives the analysis of an expired job the new state of that job |
| `JobTables.AbortedGrowsFiles` | backend/investigation/jobs.py:28-36 | neither a rollback nor a crash in the middle of one touches a file that existed before |
| `JobService.JobQueue.Enqueue` | backend/investigation/jobs.py:63-126 | an upload under rollback at every point where an exception or a crash may strike: replay and refusals first, then file, analysis and job, each new table exactly the specified one |
| `JobService.JobQueue.Abort` | backend/investigation/jobs.py:28-36 | restores the saved tables and removes the new files, all of them after an exception and the first few in a crash |
| `JobService.JobQueue.FindPrevious` | backend/investigation/jobs.py:74-84 | finds a job of this user under this key if and only if there is one |
| `JobService.JobQueue.RecoverRow` | backend/investigation/jobs.py:129-146 | one iteration of the loop releases one more expired row and its analysis |
| `JobService.JobQueue.Recover` | backend/investigation/jobs.py:129-146 | the loop over expired leases releases exactly those, whatever their order |
| `JobService.JobQueue.SelectNext` | backend/investigation/jobs.py:154-157 | the search over the rows finds the job that is first among the ready ones |
| `JobService.JobQueue.Claim` | backend/investigation/jobs.py:149-172 | expired leases are released, the first ready job gets the token, a lease and one attempt more, its analysis runs, and nothing else changes |
| `JobService.JobQueue.Finish` | backend/investigation/jobs.py:243-312 | a stale holder gets False; a failure requeues with back-off or fails for good; a document stores its attachments, completes both rows and drops the lease; any exception or crash rolls back |
| `JobService.JobQueue.StoreAttachments` | backend/investigation/jobs.py:269-279 | the attachment loop stores, remembers for rollback and records one attachment after another, and stops at the first that cannot be decoded or stored |
| `JobService.JobQueue.StoreOne` | backend/investigation/jobs.py:269-279 | one attachment is stored under its key or nothing changes |
| `JobRuns.StepKeepsInvariant` | backend/investigation/jobs.py:63-312 | every event keeps agreement of the two tables, fencing of leases and backing of every reference by a stored file |
| `JobRuns.InvariantHolds` | backend/investigation/jobs.py:63-312 | in every state of every run: an analysis with a job has that job's state, running iff token and lease are set, queued leaves attempts, running has used between one and all of them, tokens are those handed out last, and every reference names a file with the recorded digest |
| `JobRuns.RecoverKeepsAgreement` | backend/investigation/jobs.py:129-146 | recovering any set of expired leases keeps the job table and the analysis table in agreement |
| `JobRuns.CompletionKeepsBacked` | backend/investigation/jobs.py:269-311 | after a completion every recorded key still names a file with the recorded digest and size |
| `JobTheorems.StaleFinishChangesNothing` | backend/investigation/jobs.py:243-252 | a worker whose job has been claimed again gets False, and no table and no file changes |
| `JobTheorems.OnlyLatestHolderWrites` | backend/investigation/jobs.py:243-312 | the only event that writes a result is a finish with a document by the holder of the latest claim, and it stores that document with every attachment replaced by its digest |
| `JobTheorems.WriterClaimedLast` | backend/investigation/jobs.py:149-172 | whoever writes a result does so under the claim event that most recently took the job in the run |
| `JobTheorems.ResultWrittenOnce` | backend/investigation/jobs.py:243-312 | no run writes the result of an analysis twice |
| `JobTheorems.CompletedIsTerminal` | backend/investigation/jobs.py:243-312 | from completion on, the row, its attachment rows and all their stored bytes never change |
| `JobTheorems.LatestClaimIsAnEvent` | backend/investigation/jobs.py:149-172 | the recorded latest claim of a job is the last claim event of the run that returned it |
| `JobTheorems.StepAttempts` | backend/investigation/jobs.py:149-172 | an event adds a claim only by using an attempt, and only an accepted retry clears the count |
| `JobTheorems.ClaimsNeverExceed` | backend/investigation/jobs.py:149-172 | at every state, claims are covered by current attempts and accepted retries |
| `JobTheorems.ClaimsBounded` | backend/investigation/api.py:449-460 | a job is claimed at most max_attempts times for the upload and for each accepted manual retry |
| `JobTheorems.ClaimSpendsOne` | backend/investigation/jobs.py:149-172 | the sum of remaining attempts over live jobs drops by exactly one at each successful claim and not otherwise |
| `JobTheorems.FilesExactWithoutCrashes` | backend/investigation/jobs.py:28-36 | while no process dies the evidence directory holds exactly the referenced keys |
| `JobTheorems.CrashAddsOnlyUnreferenced` | backend/investigation/jobs.py:28-36 | one crash event leaves all tables alone, and a file it leaves behind is referenced by nothing |
| `JobTheorems.OrphansComeFromCrashes` | backend/investigation/jobs.py:28-36 | over all runs, a file nothing refers to was left behind by an earlier crash, and nothing ever refers to it later |
| `JobTheorems.StepIsTidy` | backend/investigation/jobs.py:63-312 | no event takes a reference back or removes a file; new references name files that were not there; without a crash every new file is referenced |
| `JobTheorems.CompletionReferences` | backend/investigation/jobs.py:269-311 | completing an analysis adds exactly the attachment keys to the references |
| `JobTheorems.OriginalsAreImmutable` | backend/investigation/evidence.py:82-150 | name, owner, digest, size and stored original of an analysis never change, nor the owner, key and analysis of its job |
| `JobTheorems.RepeatedUploadAddsNothing` | backend/investigation/jobs.py:74-84 | at any later time an upload that repeats a (user, Idempotency-Key) adds no row and no file, and gets the first id if it is the same upload and an error if not |
| `JobLeases.LeaseDecides` | backend/investigation/jobs.py:129-172 | a claim leaves a running job and its analysis alone until the lease has run out; after that the job is the one the claim returns, or queued again, or failed for good once its attempts are used up |
| `JobLeases.ClaimTakesFirst` | backend/investigation/jobs.py:149-157 | takeable are queued jobs past their back-off and abandoned ones with attempts left; the claim returns the first of these by creation time and id, and none iff there is none |
| `JobLeases.ClaimLeases` | backend/investigation/jobs.py:158-172 | the job returned runs under the new token until the timeout and a minute later, with one attempt more, and its analysis runs |
| `JobLeases.ClaimSparesWaiting` | backend/investigation/jobs.py:129-172 | the rows of a job that neither runs nor is taken stay as they are |
| `JobLeases.VerdictCountsIff` | backend/investigation/jobs.py:243-252 | a verdict is turned away iff the job is not running under its token or the lease has run out |
| `JobLeases.VerdictCommitsIff` | backend/investigation/jobs.py:243-312 | the holder's failure commits unless something interferes, its document if besides every attachment decodes and every key is new; otherwise tables stay as they were, and files too unless the process died |
| `JobLeases.FailureGivesJobBack` | backend/investigation/jobs.py:256-271 | a reported failure ends the job for good iff its attempts are used up, otherwise queues it again after 2, 4, 8, 16, 32 or at most 60 s; both rows exactly, and nothing else |
| `JobLeases.CompletionReadsBack` | backend/investigation/jobs.py:272-284 | each attachment of the document reads back with its own size and digest, from a row that names a new file with its bytes |
| `JobLeases.CompletionEndsJob` | backend/investigation/jobs.py:284-312 | the document completes job and analysis, keeps its subject and drops the lease |
| `JobLeases.UploadIsQueued` | backend/investigation/jobs.py:63-126 | which refusal a new upload gets, in this order; accepted, the rows of its job and its analysis and its file are exactly these |
| `JobLeases.UploadIsClaimable` | backend/investigation/jobs.py:110-157 | a claim right after an accepted upload finds a job |
| `JobLeases.InterruptedUpload` | backend/investigation/jobs.py:28-36 | an exception after the file was written leaves nothing; a crash there really can leave the file |
| `JobLeases.RetryAnswers` | backend/investigation/api.py:438-462 | only a failed analysis can be retried; its jobs are queued afresh with all attempts, and no other row changes |
| `JobLeases.LeaseIsExclusive` | backend/investigation/jobs.py:129-172 | over all runs, from a claim on, as long as no claim reads a clock beyond the end of the lease and the worker has not reported, the job stays with that worker |
| `JobLeases.VerdictWithinLeaseCounts` | backend/investigation/jobs.py:243-252 | so its verdict counts iff it comes within the lease |
| `JobLeases.NobodyOvertakes` | backend/investigation/jobs.py:149-157 | over all runs a queued job keeps its row until it is taken; no claim takes it before it is available, and none later comes back empty or with a job created after it |
| `JobLeases.FailureIsTriedAgain` | backend/investigation/jobs.py:256-271 | over all runs a job given back by a failure is not taken before its back-off is over, and from then on a claim finds a job |
| `JobLeases.UploadWaitsItsTurn` | backend/investigation/jobs.py:63-126 | over all runs, from an accepted upload until its job is taken, every claim finds a job |
| `Replies.ReplyDesk.UpdateReply` | backend/investigation/workflows.py:365-398 | only a draft or a failed reply at the given revision, in an allowed scope, on the same mail, becomes a draft with the new text, the resolution cleared and the next revision; the refusals come in this order, and each changes nothing |
| `Replies.ReplyDesk.RequestSend` | backend/investigation/workflows.py:415-451 | only a draft at the given revision with a standing decision moves to sending at the next revision; the caller keeps the row as read before |
| `Replies.ReplyDesk.Reconcile` | backend/investigation/workflows.py:494-527 | only a reply sending or uncertain at the given revision is resolved, at the next revision; every refusal changes nothing |
| `ReplyTheorems.DraftIsWhatIsSent` | backend/investigation/workflows.py:332-362 | a new draft can be sent at revision 1, given transport and decision, and the transport gets what was drafted; no other row changes |
| `ReplyTheorems.EditIsWhatIsSent` | backend/investigation/workflows.py:365-398 | after an edit the next revision sends the edited text, and a send at the old revision is refused |
| `ReplyTheorems.ResultRecordedOnce` | backend/investigation/workflows.py:462-478 | a recorded result moves the row out of sending with text and revision kept, and no sender of the reply records another |
| `ReplyRuns.StepKeepsAccounts` | backend/investigation/workflows.py:365-527 | a reply keeps the sender that answers for it until the next request or edit |
| `ReplyRuns.InvariantHolds` | backend/investigation/workflows.py:365-527 | in every state: no two sends share reply and revision, and every reply that is not a draft has the text of its last send, which is still under way, or reported just what the row says |
| `ReplyTheorems.EachRevisionTransmittedOnce` | backend/investigation/workflows.py:446-461 | no run hands the same revision of a reply to the transport twice |
| `ReplyTheorems.RevisionsGrow` | backend/investigation/workflows.py:365-527 | revisions never fall, and a row still sending at an earlier revision is unchanged since |
| `ReplyTheorems.RecordedResultBelongsToItsSend` | backend/investigation/workflows.py:462-478 | a recorded result belongs to the send that put the row into sending: no other state of the row lies in between |
| `ReplyTheorems.RequestsAreSeparated` | backend/investigation/workflows.py:415-451 | two send requests of a reply are separated by a reconciled failure and then an edit |
| `ReplyTheorems.FailureThenEdit` | backend/investigation/workflows.py:365-398 | from an unresolved send a reply becomes a draft again only by a reconciled failure followed by an edit |
| `ReplyTheorems.OnTimeTransmissionsAreSeparated` | backend/investigation/workflows.py:446-461 | so are two transmissions that happen while their own send is current |
| `ReplyTheorems.NextTransmissionSeparatedIff` | backend/investigation/workflows.py:415-461 | for a send and the next one requested, the second transmission on time: the two are separated by a reconciled failure and an edit iff the first was on time too, that is, its row was still sending at the revision its send produced |
| `ReplyTheorems.SeparatedIffRedrafted` | backend/investigation/workflows.py:365-527 | for any two points of a run, on time or not: separated iff the reply was unresolved at some moment from the first on and a draft at a later one up to the second |
| `ReplyTheorems.SeparatedIffThreeRevisions` | backend/investigation/workflows.py:365-461 | whatever follows an on-time transmission, another late one included, is separated from it iff the row has by then moved at least three revisions beyond the one sent |
| `ReplyTheorems.SlowSenderComesSecond` | backend/investigation/workflows.py:446-461 | a run with an on-time transmission of the re-send directly followed by that of the slow first sender: being on time first is not enough |
| `ReplyTheorems.TransmissionSeparatedIff` | backend/investigation/workflows.py:415-461 | for any earlier event: separated from an on-time transmission iff the reply was unresolved at some moment from then on and before that send was requested |
| `ReplyTheorems.LateTransmissionIsNotSeparated` | backend/investigation/workflows.py:446-461 | the condition is needed: a run in which the reply is unresolved, a late sender and the on-time one reach the transport one right after the other, and nothing separates them |
| `ReplyTheorems.AcceptedIsTerminal` | backend/investigation/workflows.py:373-376 | an accepted reply never changes again |
| `ReplyTheorems.AcceptedContentWasSent` | backend/investigation/workflows.py:462-478 | the text of a reply that is not a draft is the text of its last send; if the transport accepted it, that send did |
| `ReplyRevisions.EditAnswers` | backend/investigation/workflows.py:365-398 | an edit is accepted iff it names the row's own revision, the row is a draft or a failure, and mail and scope allow it; the row then reads back exactly, else nothing changes and the first obstacle is reported |
| `ReplyRevisions.SendAnswers` | backend/investigation/workflows.py:415-451 | the same for a send: a draft at this revision, a transport, and a decision where there is a mail |
| `ReplyRevisions.RecordAnswers` | backend/investigation/workflows.py:462-478 | a result is recorded iff the row is still sending at the revision of its own send |
| `ReplyRevisions.ReconcileAnswers` | backend/investigation/workflows.py:494-527 | the same for a reconciliation: a reply sending or uncertain at this revision, with outcome and proof kept |
| `ReplyRevisions.CreateAnswers` | backend/investigation/workflows.py:332-362 | a draft is created iff its scope allows it and its mail, if it names one |
| `ReplyRevisions.MissingAnswers` | backend/investigation/workflows.py:365-527 | no route changes anything for a reply that is not there |
| `ReplyRevisions.EachRevisionUsedOnce` | backend/investigation/workflows.py:365-527 | over all runs, of all edits, sends and reconciliations made against one revision of a reply at most one is accepted, and the others change nothing |
| `ReplyRevisions.MailIsFixed` | backend/investigation/workflows.py:382-383 | over all runs a reply that names a mail keeps that mail |
| `ReplyRevisions.NothingIsSentUnasked` | backend/investigation/workflows.py:415-461 | over all runs, what reaches the transport was asked for earlier, as the draft it then was, at that revision, and after a decision on its mail |
| `HttpBody.DecodeAppend` | backend/investigation/providers/http.py:84-98 | decoding is incremental: a longer input continues where the shorter one stopped |
| `HttpBody.Decompressor.Decompress` | backend/investigation/providers/http.py:92-94 | the documented contract of a bounded decompress call, with the unconsumed rest kept when the bound is hit |
| `HttpBody.ProviderHttp.constructor` | backend/investigation/providers/http.py:19-30 | the cap is at least 1 and at most the module limit, and the configured one in between |
| `HttpBody.ProviderHttp.ReadBody` | backend/investigation/providers/http.py:76-104 | succeeds iff the wire fits the cap and decodes whole as identity or one complete gzip member within the cap, with that content, whatever the chunks; a refusal as invalid or as too large is justified by the wire; every bound handed to decompress is between 1 and the cap plus 1 |
| `HttpBody.BodyExactly` | backend/investigation/providers/http.py:76-104 | the bodies there are: wire bytes within the cap if not compressed, one whole member within the cap on the wire and inflated if gzip, none under any other encoding |
| `HttpBody.PrefixTooLong` | backend/investigation/providers/http.py:95-96 | a prefix that decodes beyond the cap condemns the whole body |
| `HttpBody.TrailingBytes` | backend/investigation/providers/http.py:98-101 | a member that ends before the wire does condemns the whole body |
| `HttpBody.ExactlyOneMember` | backend/investigation/providers/http.py:98-103 | neither a second member nor trailing bytes nor a truncated member is a body |
| `LikePattern.ReplacementsEscape` | backend/investigation/investigations.py:149-153 | the three ordered replacements equal one escape per character |
| `LikePattern.EscapedPrefix` | backend/investigation/investigations.py:149-153 | an escaped value followed by a percent sign matches exactly the texts beginning with it, up to ASCII case |
| `LikePattern.LeadingPercent` | backend/investigation/investigations.py:149-153 | a leading percent sign lets the rest match from any offset |
| `LikePattern.PatternIsSubstringSearch` | backend/investigation/investigations.py:149-153 | for every value and text, LIKE with the built pattern holds iff the value occurs in the text up to ASCII case |
| `LikePattern.BackslashesMustComeFirst` | backend/investigation/investigations.py:149-153 | with the backslash replaced last, a search for a percent sign would miss it |
| `LikePattern.UnderscoresMustBeEscaped` | backend/investigation/investigations.py:149-153 | without its escape a search for an underscore would find what is not there |
| `LikePattern.OneCharacterPatterns` | backend/investigation/investigations.py:149-153 | a pattern of one character, escaped or not, matches it up to ASCII case, and a bare underscore any |
| `DkimExchange.Worker.Start` | backend/investigation/dkim_task.py:46-62 | no signature or more than five give a verdict at once, otherwise the first request or verdict |
| `DkimExchange.Worker.Resume` | backend/investigation/dkim_task.py:34-43 | one reply takes the worker to its next message |
| `DkimExchange.Worker.Continue` | backend/investigation/dkim_task.py:59-76 | the loop over signatures, up to the next request or the verdict |
| `DkimExchange.Exchange` | backend/investigation/dkim_api.py:132-159 | parent loop and worker, run against each other line by line, come to the verdict and the queries of the specified conversation |
| `DkimExchange.Serve` | backend/investigation/dkim_api.py:132-159 | the parent loop for any number of lines left |
| `DkimExchange.RequestAnswered` | backend/investigation/dkim_api.py:150-158 | one request and its reply take the conversation to the worker's next message |
| `DkimTheorems.EnoughBudget` | backend/investigation/dkim_api.py:132-134 | with one message more than there are requests the verdict always arrives |
| `DkimTheorems.TooSmallBudget` | backend/investigation/dkim_api.py:132-134 | with no more messages than requests it never does: the budget is exactly enough |
| `DkimTheorems.RepliesFit` | backend/investigation/dkim_task.py:34-43 | no reply of the parent is too long for the worker, because DNS answers are bounded |
| `DkimTheorems.VerdictAlwaysDelivered` | backend/investigation/dkim_api.py:132-159 | for up to five signatures and any resolver the exchange delivers what worker and resolver would decide as one program, if every request line fits |
| `DkimTheorems.OversizedNameHidesVerdict` | backend/investigation/dkim_api.py:135-136 | one request line over the limit makes the check unavailable, for any signatures and any resolver |
| `DkimTheorems.DeliveredIff` | backend/investigation/dkim_api.py:132-159 | for a resolver that does not itself report a broken exchange, the delivered verdict is the one worker and resolver would reach as one program iff every request line fits |
| `DkimTheorems.VerifyingSignatureLost` | backend/investigation/dkim_api.py:135-136 | a signature whose well-formed key name is looked up, found and verifies, beside one with a name too long for the pipe: the verdict would be valid and is delivered as unavailable |
| `DkimTheorems.LongSelectorLosesVerdict` | backend/investigation/dkim_api.py:135-136 | so for every ordinary selector and domain beside a selector of more than 8200 characters at the same domain |
| `DkimTheorems.VerdictLostAtExample` | backend/investigation/dkim_api.py:135-136 | such a message: selectors s and 8201 times a at e.org |
| `DkimTheorems.VerdictMeaning` | backend/investigation/dkim_task.py:57-76 | valid iff some signature verified, else unavailable iff some key could not be had, with the last such reason, else invalid |
| `DkimTheorems.AbsorbMeaning` | backend/investigation/dkim_task.py:57-68 | what the three loop variables hold after any findings |
| `DkimTheorems.QueryLimitNeverHit` | backend/investigation/dkim_api.py:87-88 | dns_query_limit never occurs, and every name asked for is a well-formed key name |
| `DkimTheorems.QueryLimitNeverReported` | backend/investigation/dkim_api.py:87-88 | no check of any message ends with dns_query_limit, unless the resolver itself reports it |
| `DkimTheorems.AskGrows` | backend/investigation/dkim_api.py:78-90 | a lookup leaves the record of queries alone, or adds one well-formed name while fewer than five are there |
| `DkimTheorems.FoundOnceAnsweredAgain` | backend/investigation/dkim_api.py:85-86 | a key found once is answered again, for any spelling of its name, without another call |
| `DkimTheorems.AtMostFiveQueries` | backend/investigation/dkim_api.py:71-104 | whatever the message and whatever the resolver answers, a check makes at most five resolver calls, all for well-formed key names |
| `DkimNames.SpellingIsIrrelevant` | backend/investigation/dkim_api.py:79 | two spellings of a name that differ only in the case of letters are looked up alike: same key, same record, same answer |
| `DkimNames.RootDotIsIrrelevant` | backend/investigation/dkim_api.py:79 | a dot at the end makes no difference |
| `DkimNames.ValidNamesExactly` | backend/investigation/dkim_api.py:80-86 | the names looked up are those of at most 253 characters made of labels of 1 to 63 small letters, digits, underscores and hyphens, with the mark ._domainkey. somewhere |
| `DkimNames.MalformedNameIsRefused` | backend/investigation/dkim_api.py:80-86 | any other name is refused without a query |
| `DkimNames.FreshLookup` | backend/investigation/dkim_api.py:87-104 | a new name is recorded with the domain after its first mark, and asked for unless five were; a key of 1 to 4096 bytes is returned and remembered, everything else is refused with its reason |
| `DkimNames.SignatureCountDecides` | backend/investigation/dkim_task.py:54-60 | without a signature the message is unsigned, with more than five its check is unavailable; neither looks anything up |
| `DkimNames.DomainOfKeyName` | backend/investigation/dkim_api.py:92 | for an ordinary key name the recorded domain is all that follows the mark |
| `DkimNames.SpelledSignatureVerifies` | backend/investigation/dkim_api.py:79-104 | a message whose one signature names its key in any mixture of case is valid when the key is there under the small letters and verifies it |
| `DkimNames.OversizedLines` | backend/investigation/dkim_api.py:132-136 | the request line as text, with its escapes: it ends the exchange iff it has more than 8192 characters, and the reason tells whether the line feed makes the difference |
| `DkimNames.KeyLineIsRead` | backend/investigation/dkim_task.py:36-43 | the reply line as text, in base64: up to 4096 bytes of key are read whole, and what is judged is that key |
| `Enrichments.EnrichmentTables.Reserve` | backend/investigation/enrichment_api.py:288-376 | replay before all else, then pending submissions, history cap and rate limit, then one row, slot and event; a refusal changes nothing |
| `Enrichments.EnrichmentTables.StartVerification` | backend/investigation/dkim_api.py:280-332 | reserves first, and takes row, slot and event back when another check of the analysis is pending |
| `EnrichmentRuns.ReserveAllOrNothing` | backend/investigation/enrichment_api.py:288-376 | a reservation adds one pending row, one rate slot and one event, or changes nothing |
| `EnrichmentRuns.StartAllOrNothing` | backend/investigation/dkim_api.py:280-332 | so does the start of a check, whose late refusal takes all three back |
| `EnrichmentRuns.InvariantHolds` | backend/investigation/dkim_api.py:208-332 | in every state: request ids are unique, at most one check per analysis is pending, and there are as many terminal audit events as closed checks |
| `EnrichmentRuns.ClosedCheckIsFinal` | backend/investigation/dkim_api.py:219-233 | a closed check never changes again |
| `EnrichmentRuns.ClosingStepAuditsOnce` | backend/investigation/dkim_api.py:208-216 | the step that closes a check appends exactly one terminal audit event, in the same transaction |
| `EnrichmentRuns.PendingIsLeftOnce` | backend/investigation/dkim_api.py:208-277 | in every run one event at most closes a given check |
| `EnrichmentRuns.LateFinalizerGetsRecoveredResult` | backend/investigation/dkim_api.py:219-233 | a finalizer that comes after recovery returns the recovered row and changes nothing |
| `EnrichmentRuns.CompletionStands` | backend/investigation/dkim_api.py:219-233 | once a completion has returned, completing again with any verdict or recovering returns the same closed row and changes nothing; other rows, slots and the row's identity were never touched |
| `EnrichmentRuns.RecoveryIffOverdue` | backend/investigation/dkim_api.py:236-277 | a pending check can be recovered iff its deadline has passed; then a late verdict changes nothing and the analysis has no pending check left |
| `EnrichmentRuns.ReplayTakesNothing` | backend/investigation/enrichment_api.py:302-311 | at any later time a call with a known request id takes no row, slot or event: the original row if it asks the same, an error if not |
| `EnrichmentRuns.StepMovesTable` | backend/investigation/enrichment_api.py:126-143 | an event that commits a reservation passes the rate limit and adds one row; every other event, late refusals included, leaves the attempts table and the set of rows alone |
| `EnrichmentRuns.TableOfReservations` | backend/investigation/enrichment_api.py:126-143 | in every state the attempts table is what the committed reservations leave in it, each of them admitted |
| `EnrichmentRuns.RunsKeepTheLimit` | backend/investigation/enrichment_api.py:126-143 | in every run whose reservations read a clock that steps back by at most 3540 s, no minute sees more reservations for a provider than its limit |
| `EnrichmentAnswers.RepeatAnswers` | backend/investigation/enrichment_api.py:302-311 | a repeated request id gets its row if everything asked for is the same, and an error if not |
| `EnrichmentAnswers.ReserveAnswers` | backend/investigation/enrichment_api.py:312-376 | a new request is refused while the same submission is pending, at 1000 rows, or when the minute is used up, in this order; else its row is exactly this |
| `EnrichmentAnswers.StartAnswers` | backend/investigation/dkim_api.py:280-332 | a check starts iff policy and evidence allow it, the reservation does, and no check of the analysis is pending |
| `EnrichmentAnswers.StartedCheckLastsAMinute` | backend/investigation/dkim_api.py:236-277 | a check can be given up iff a minute has passed since it started |
| `EnrichmentAnswers.CompleteAnswers` | backend/investigation/dkim_api.py:208-233 | a verdict is kept as it came, available unless verification itself was unavailable; a closed row answers with itself |
| `EnrichmentAnswers.RecoverAnswers` | backend/investigation/dkim_api.py:236-277 | recovery closes an overdue check as unavailable and interrupted, exactly this row, and nothing else |
| `EnrichmentAnswers.SaveAnswers` | backend/investigation/enrichment_api.py:379-413 | a provider's result replaces status and report of its row, which may be polled again after 30 s if still pending |
| `EnrichmentAnswers.HistoryIsCapped` | backend/investigation/enrichment_api.py:324-331 | over all runs no analysis has more than 1000 enrichments |
| `RateLimits.TableCountsHistory` | backend/investigation/enrichment_api.py:128-137 | the pruned table still counts every admitted call of the last minute |
| `RateLimits.AdmittedIffRoom` | backend/investigation/enrichment_api.py:126-143 | with such a clock a call is admitted iff fewer than the limit were admitted in the minute before it, although rows are pruned |
| `RateLimits.LastAdmissionLeavesRoom` | backend/investigation/enrichment_api.py:134-143 | an admission leaves every window it belongs to within the limit |
| `RateLimits.SlidingWindowBound` | backend/investigation/enrichment_api.py:126-143 | at most the limit is admitted in any minute, even if the clock steps back by up to 3540 s |
| `RateLimits.SteadyClockBound` | backend/investigation/enrichment_api.py:126-143 | in particular with a clock that never steps back |
| `RateLimits.ForwardGlitchLosesHistory` | backend/investigation/enrichment_api.py:128-137 | for every slack beyond 3540 s there is a run with that slack in which some minute exceeds the limit, for any provider |
| `RateLimits.LimitHoldsIff` | backend/investigation/enrichment_api.py:126-143 | the limit holds in every minute of every run iff the clock steps back by at most 3540 s |
| `RateLimits.RefusedWhileWindowLasts` | backend/investigation/auth.py:111-137 | a refused identity stays refused exactly until its window is over, and refused calls change nothing |
| `RateLimits.FixedWindowBound` | backend/investigation/auth.py:111-137 | an identity never cleared passes at most 2*limit-1 times in any half-open interval of one window length |
| `RateLimits.FixedWindowBoundAttained` | backend/investigation/auth.py:111-137 | and that many times for some clock: the bound is exact |
| `MfaService.MfaDesk.Login` | backend/investigation/api.py:97-119 | counts the attempt, then a wrong password keeps the counter, a right one clears it and gives a session, or with a second factor only a challenge that ends this browser's session |
| `MfaService.MfaDesk.Verify` | backend/investigation/mfa.py:202-230 | an unexpired challenge of an active enrolled user and an accepted factor give a session and end all challenges; a wrong factor is counted and stays so |
| `MfaService.MfaDesk.Setup` | backend/investigation/mfa.py:242-271 | with session and password, a pending secret bound to this session; failures stay counted |
| `MfaService.MfaDesk.Enable` | backend/investigation/mfa.py:274-303 | a code of the pending secret makes it the user's, sets the last step, issues ten codes and replaces every session of the user by one new one |
| `MfaService.MfaDesk.Regenerate` | backend/investigation/mfa.py:316-327 | password and factor replace the codes and every session of the user |
| `MfaService.MfaDesk.Disable` | backend/investigation/mfa.py:330-345 | password and factor remove secret, last step, codes and every session of the user but the new one |
| `MfaService.MfaDesk.UpdateUser` | backend/investigation/api.py:169-191 | an unknown account and administrators taking their own rights are refused without a change; otherwise role and activity are set, the password too if one is given, and every session, challenge, pending secret and API token of that user is gone |
| `MfaService.MfaDesk.FindStep` | backend/investigation/mfa.py:121-129 | the first of current, previous and next step whose code matches and which is later than the last one |
| `MfaService.MfaDesk.ConsumeFactor` | backend/investigation/mfa.py:132-146 | spends a recovery code, or else advances the last step, or changes nothing |
| `MfaService.MfaDesk.ReplaceCodes` | backend/investigation/mfa.py:149-159 | exactly the ten new digests remain; a duplicate is an error |
| `MfaService.MfaDesk.CheckProof` | backend/investigation/mfa.py:183-192 | password, then factor, each counted; a refusal keeps the counters |
| `MfaRuns.RevocationIsComplete` | backend/investigation/auth.py:140-142 | nothing that would authenticate the user is left, API tokens included, and sessions, challenges, tokens and pending enrolments of everyone else are unchanged |
| `MfaRuns.IssuedSessionLasts` | backend/investigation/auth.py:87-108 | the new session authenticates an active user for eight hours and joins exactly the sessions that had not run out |
| `MfaRuns.UpdatedUserIsLoggedOut` | backend/investigation/api.py:169-191 | after an accepted change the user has no session, challenge or token left and must log in again, with the second factor and codes of before; administrators stay active administrators after a change of their own account; other users are unchanged |
| `MfaRuns.ConsumeEffect` | backend/investigation/mfa.py:132-146 | an accepted factor is one code less or a later step, of that user only |
| `MfaRuns.ProofEffect` | backend/investigation/mfa.py:162-192 | a checked proof spends a factor of the session's own user |
| `MfaRuns.VerifyEffect` | backend/investigation/mfa.py:202-230 | a completed verification spends a factor of the challenged user and then issues the session |
| `MfaRuns.StepUserEffect` | backend/investigation/mfa.py:202-345 | what any route does to the enrolment, last step and codes of any user |
| `MfaTheorems.SessionEffect` | backend/investigation/auth.py:87-142 | a session of an enrolled user was issued by this event against a factor or was there under the same enrolment |
| `MfaTheorems.SessionsProvenByFactor` | backend/investigation/api.py:97-119 | while a second factor is enabled, every session row of the user was issued after a factor accepted under the current enrolment |
| `MfaTheorems.TotpAcceptancesBounded` | backend/investigation/mfa.py:121-146 | within one enrolment at most t2/30 - t1/30 + 3 one-time codes are accepted at readings in [t1, t2], whatever the clock does in between |
| `MfaTheorems.StepAcceptedOnce` | backend/investigation/mfa.py:132-146 | no time step is accepted twice in one enrolment, as section 5.2 of RFC 6238 asks |
| `MfaTheorems.RecoveryCodesConserved` | backend/investigation/mfa.py:149-159 | from one generation of codes to the next, unused codes and uses add up to ten |
| `MfaAccess.CodeIsMatched` | backend/investigation/mfa.py:121-129 | a step is found iff the code is that of the secret for this, the previous or the next half minute and later than the last; among several the current before the next |
| `MfaAccess.FactorIsGenuine` | backend/investigation/mfa.py:132-146 | a factor is accepted iff the request proves a stored recovery code or, with the key at hand, such a one-time code; just that is spent |
| `MfaAccess.LoginAnswers` | backend/investigation/api.py:97-119 | without the password of an active account an attempt is counted and refused, the eleventh in 900 s unseen; with it the count is cleared and a session of eight hours opens, or with a second factor a challenge of five minutes |
| `MfaAccess.LoginNeedsPassword` | backend/investigation/api.py:107-113 | no session and no challenge without the password |
| `MfaAccess.VerifyAnswers` | backend/investigation/mfa.py:202-230 | no session without a live challenge of an active enrolled account and a genuine factor; a wrong one is counted, the sixth in 900 s unseen; a right one clears the counts and ends all challenges |
| `MfaAccess.SetupAnswers` | backend/investigation/mfa.py:242-271 | no pending secret without a live session and the password; it is bound to that session for ten minutes |
| `MfaAccess.EnableAnswers` | backend/investigation/mfa.py:274-303 | no enrolment without a live session, its own pending secret and a code of that secret, which becomes the user's |
| `MfaAccess.ProofAnswers` | backend/investigation/mfa.py:162-192 | a proof needs a live session, the password and a genuine factor, in this order; each refusal is counted where the code keeps it |
| `MfaAccess.RegenerateAnswers` | backend/investigation/mfa.py:316-327 | regenerating succeeds only with such a proof and leaves exactly the ten new codes, cleared counts and a session of eight hours |
| `MfaAccess.DisableAnswers` | backend/investigation/mfa.py:330-345 | so does disabling, which leaves neither secret nor codes |
| `MfaAccess.UpdateUserAnswers` | backend/investigation/api.py:169-191 | the account an administrator leaves, exactly; never so that the administrator's own account loses activity or role |
| `MfaAccess.NewPasswordOpens` | backend/investigation/api.py:169-191 | from then on just the password given last opens the account, and only while it is active |
| `MfaAccess.NewAccountOpens` | backend/investigation/api.py:152-166 | a new account is active, has no second factor, and its password opens it |
| `MfaAccess.CancelAndLogout` | backend/investigation/mfa.py:306-313 | only the session that asked for it can call a pending enrolment off, and logging out ends just that session |
| `MfaAccess.TokenLastsUntilUpdate` | backend/investigation/auth.py:140-142 | a new API token is its user's until the account is changed |
| `MfaProvenance.AccessNeedsPassword` | backend/investigation/api.py:97-119 | over all runs every session, challenge and pending secret goes back to a request that gave the password the active account still has: a new password or a deactivation ends whatever the old one opened |
| `MfaProvenance.GuessesBounded` | backend/investigation/auth.py:111-137 | over all runs, since its count was last cleared, an identity has had at most 19 passwords, or 9 codes or confirming passwords, checked in any 900 s of a clock that does not step back |
| `MfaProvenance.WrongGuessCounts` | backend/investigation/mfa.py:174-192 | over all runs every refused password, code or proof is one of those attempts |
| `MimeLimits.ValidateZip` | backend/investigation/parser_limits.py:29-43 | the loops accept exactly the directories within entry count, expanded size and ratio |
| `MimeLimits.VisitKeepsAccount` | backend/investigation/parser_limits.py:13-20 | taking any pending part and pending its children keeps what is counted and what is pending equal to the whole tree: the order does not matter |
| `MimeLimits.RefusalIsJustified` | backend/investigation/parser_limits.py:16-26 | a refusal at any point is a fault of the message as a whole |
| `MimeLimits.VisitingOrderIsIrrelevant` | backend/investigation/parser_limits.py:13-20 | whichever pending part is taken next, the walk comes to the decision that the tree as a whole calls for |
| `MimeLimits.ValidateMessage` | backend/investigation/parser_limits.py:9-26 | the worklist accepts iff the tree has at most 200 nodes, depth 20 and 30 MiB of decoded leaves, and every ZIP leaf is acceptable; it terminates |
| `MimeLimits.MessageLimits` | backend/investigation/parser_limits.py:9-26 | these limits in numbers, the depth being that of the deepest part |
| `MimeLimits.ZipLimits` | backend/investigation/parser_limits.py:29-43 | 1000 entries, 100 MiB advertised in all, and no entry over 1 MiB that expands more than 200 times; an unreadable directory is refused |
| `Campaigns.CampaignDesk.LinkEmails` | backend/investigation/collections.py:342-350 | links all mails or, if one does not exist, none |
| `Campaigns.CampaignDesk.CreateCampaign` | backend/investigation/collections.py:353-381 | a new row with its members, closed only past the guard; a bad owner, a missing mail or a refused closing leaves no row and no member |
| `Campaigns.CampaignDesk.AddEmails` | backend/investigation/collections.py:432-448 | a closed campaign, a wrong revision or a missing mail changes nothing; otherwise all mails become members at the next revision |
| `Campaigns.CampaignDesk.Reopen` | backend/investigation/investigations.py:492-529 | appends a reopening of a standing decision and sets every live campaign of the mail to investigating at its next revision; archived ones and refusals change nothing |
| `Campaigns.LatestId` | backend/investigation/investigations.py:459-462 | the id returned is that of a decision on the mail after which none follows |
| `CampaignRuns.UpdateReadsBack` | backend/investigation/collections.py:400-424 | an accepted update reads back as typed, one revision on, is the only change, is closed only past the guard, and makes every other update typed against the same revision a conflict |
| `CampaignRuns.ArchiveKeepsContents` | backend/investigation/collections.py:384-397 | archiving keeps details, status and members at the next revision, and no later edit at any revision finds the campaign |
| `CampaignRuns.ArchivedIsFinal` | backend/investigation/collections.py:384-397 | over all runs neither the row nor the members of an archived campaign change again |
| `CampaignRuns.DetachUndoesAttach` | backend/investigation/collections.py:432-471 | detaching a mail just attached restores the tables but for two revisions of the campaign |
| `CampaignRuns.DecisionStandsUntilReopened` | backend/investigation/investigations.py:454-511 | a decision stands under a new id, can be reopened once by that id, and a second reopening is refused |
| `CampaignRuns.PendingActionBlocksClosing` | backend/investigation/workflows.py:178-216 | a pending action keeps open every campaign it concerns, its own or those of its mail |
| `CampaignRuns.FinishedActionBlocksNothing` | backend/investigation/workflows.py:219-261 | an action created and then finished leaves every campaign as free to be closed as before |
| `CampaignRuns.ClosingSettles` | backend/investigation/collections.py:284-302 | the event that closes a campaign leaves no own action to do, and every member failed or decided |
| `CampaignRuns.ClosedMemberStep` | backend/investigation/investigations.py:492-519 | while the campaign is closed a settled member stays settled, except exactly by a reopening behind an archived campaign |
| `CampaignRuns.ClosedCampaignStaysSettled` | backend/investigation/collections.py:400-471 | over all runs, a completed and decided member of a closed live campaign stays so while that lasts |
| `CampaignRuns.ClosedCampaignIsFrozen` | backend/investigation/collections.py:432-471 | a closed campaign keeps exactly its members, and its own actions stay finished |
| `CampaignRuns.ClosedMeansFinished` | backend/investigation/collections.py:284-302 | at any time since its closing, a live closed campaign has the members it was closed with, each decided unless its processing had failed, and nothing of its own to do |
| `CampaignRuns.ArchivedCampaignKeepsReopenedMember` | backend/investigation/investigations.py:516-519 | for archived campaigns the promise is false: a run from empty tables ends with a closed, archived campaign that holds an undecided member |
| `CampaignRuns.ReopeningWakesCampaigns` | backend/investigation/investigations.py:516-519 | reopening puts every live campaign of the mail back to investigating, and it cannot be closed again at once |
| `CampaignRuns.SameRevisionSameRow` | backend/investigation/collections.py:384-471 | two states of a campaign with equal revision agree on everything but timestamps |
| `CampaignRuns.EachRevisionEditedOnce` | backend/investigation/collections.py:384-471 | of all edits made against one revision at most one is accepted |
| `CampaignRuns.DecisionsAreAppended` | backend/investigation/investigations.py:454-511 | decisions are only ever appended |
| `CampaignRuns.EachDecisionBuiltOnOnce` | backend/investigation/investigations.py:459-470 | of two decisions or reopenings that name the same predecessor the later is refused and changes nothing |
| `CampaignRuns.ReopeningAnswersDecision` | backend/investigation/investigations.py:498-511 | a reopening always follows a standing decision on that mail |
| `CampaignAnswers.WhatKeepsOpen` | backend/investigation/collections.py:284-302 | a campaign may be closed iff no action of it or of its mails is pending, no reply of these is being sent, and every member has failed or is completed with a last entry that decides it |
| `CampaignAnswers.SendingReplyKeepsOpen` | backend/investigation/collections.py:294-302 | a reply being sent holds up closing and archiving of every campaign it concerns |
| `CampaignAnswers.UpdateAnswers` | backend/investigation/collections.py:400-424 | the refusals in order, and the row an accepted update leaves |
| `CampaignAnswers.ArchiveAnswers` | backend/investigation/collections.py:384-397 | the same for archiving |
| `CampaignAnswers.MembershipAnswers` | backend/investigation/collections.py:432-471 | attaching and detaching: refused for a missing, stale or closed campaign or a missing mail; else exactly these members, at the next revision |
| `CampaignAnswers.CreateAnswers` | backend/investigation/collections.py:353-381 | a new campaign has revision 1 and just the mails it names; whatever is refused leaves no trace |
| `CampaignAnswers.CreatedClosedIff` | backend/investigation/collections.py:373-374 | it can start closed iff it could be closed right after starting open |
| `CampaignAnswers.DecideAnswers` | backend/investigation/investigations.py:454-489 | a decision needs the mail and, where it names one, the latest decision |
| `CampaignAnswers.ReopenAnswers` | backend/investigation/investigations.py:492-529 | a reopening needs a last entry that decides the mail, and changes every live campaign of the mail and no other row |
| `CampaignAnswers.NewActionAnswers` | backend/investigation/workflows.py:178-216 | an action needs an open campaign, with its mail in it, or an existing mail, a valid owner and a documented outcome |
| `CampaignAnswers.EditActionAnswers` | backend/investigation/workflows.py:219-261 | it changes only at its own revision and within its scope |
| `LegacyMigration.EachCaseMoved` | backend/investigation/collections.py:64-119 | each newly migrated case gets one link; a meaningful one a new campaign with its data and one copy of each note, and only such |
| `LegacyMigration.WhereCasesGo` | backend/investigation/collections.py:35-101 | read off the rows: a case goes to a campaign with its own data iff it has notes, actions, replies or intelligence, anything set beyond the defaults, or was not made by the system for one mail and its sender; and onto its mail iff it has one |
| `LegacyMigration.CampaignsAreDistinct` | backend/investigation/collections.py:78-92 | no two cases share a campaign |
| `LegacyMigration.LinksAreKept` | backend/investigation/collections.py:66-71 | existing links are kept, and exactly the migrated cases gain one |
| `LegacyMigration.RowsAreKept` | backend/investigation/collections.py:64-137 | existing campaigns and copied notes are unchanged |
| `LegacyMigration.CopiedNotesBelongToCases` | backend/investigation/collections.py:104-117 | nothing else is copied as a note |
| `LegacyMigration.MembersAreThoseOfTheCases` | backend/investigation/collections.py:97-137 | a mail is a member of exactly its previous campaigns and all campaigns of its migrated case |
| `LegacyMigration.EventsAreThoseOfTheCases` | backend/investigation/collections.py:140-153 | the same for events |
| `LegacyMigration.RowsFollowTheirCase` | backend/investigation/collections.py:118-130 | actions, replies without mail and unplaced intelligence of a meaningful case move into its campaign, events of a case with one mail onto that mail; otherwise they keep their scope |
| `LegacyMigration.ForeignRowsAreKept` | backend/investigation/collections.py:118-130 | rows of no migrated case keep their scope |
| `LegacyMigration.MigrationIsIdempotent` | backend/investigation/collections.py:64-71 | a second migration changes nothing |
| `LegacyMigration.InPartsEqualsAtOnce` | backend/investigation/collections.py:64-71 | migrating some cases before the others exist and all again later equals migrating all at once |
| `LegacyMigration.MigrationSucceeds` | backend/investigation/collections.py:104-117 | the unique column of copied notes is never violated |
| `LegacyService.Migrator.MigrateLegacy` | backend/investigation/collections.py:64-137 | cases in order, each skipped or moved; a violated unique column restores every written table; the legacy tables are never touched |
| `LegacyService.Migrator.MigrateOne` | backend/investigation/collections.py:66-137 | one case: skipped, moved, or the unique column violated |
| `LegacyService.Migrator.PlaceCase` | backend/investigation/collections.py:93-137 | the statements of one case yield the specified tables |
| `LegacyService.Migrator.MeaningfulCase` | backend/investigation/collections.py:35-61 | equal to the definition, and never reads a first mail that is not there |
| `LegacyService.Migrator.CopyNotes` | backend/investigation/collections.py:104-117 | all notes are copied, or one had been before |
| `LegacyService.Migrator.LinkMembers` | backend/investigation/collections.py:131-136 | every mail into every campaign of the case |
| `LegacyService.Migrator.MigrateEvents` | backend/investigation/collections.py:140-153 | the nested loop shows every event in every campaign of the case |
| `LegacyService.Migrator.NextId` | backend/investigation/collections.py:78-92 | the id of the inserted row is one more than the greatest |
| `BackupCipher.EncryptFile` | backend/investigation/backup.py:37-53 | whatever pieces the source is read in, the file is magic, nonce, whole ciphertext and tag; a file already there is an error and kept |
| `BackupCipher.DecryptFile` | backend/investigation/backup.py:56-83 | yields the plaintext of the whole file into a free destination, leaves nothing behind after a wrong tag, and removes a file already there once magic and length are right |
| `BackupCipher.DestinationAfterDecryption` | backend/investigation/backup.py:56-83 | succeeds iff the destination is free and the input a sealed file; a failure takes a file already there away iff the input has magic and length of a backup, whatever its tag |
| `BackupCipher.ExistingDestinationIsLost` | backend/investigation/backup.py:70-83 | decrypting a good backup over an existing file fails and the existing file is gone |
| `BackupCipher.DecryptionAnswers` | backend/investigation/backup.py:56-83 | the first obstacle: no magic, fewer than 47 bytes, an existing destination, a file no encryption under this key produces |
| `BackupCipher.OpensExactlySealedFiles` | backend/investigation/backup.py:37-83 | a file decrypts to some data iff it is an encryption of that data under some nonce |
| `BackupCipher.SealedIsInjective` | backend/investigation/backup.py:37-83 | encryptions of different contents are different files |
| `BackupCipher.CombineSplits` | backend/investigation/backup.py:50-51 | the key stream position carries over between chunks |
| `PathNames.AcceptedNamesArePlain` | backend/investigation/backup.py:130-138 | the accepted member names are exactly those whose components are all proper names and that hold no backslash, and the single dot |
| `PathNames.JoinSplit` | backend/investigation/backup.py:130-138 | taking a name apart at its slashes loses nothing |
| `BackupArchive.Pack` | backend/investigation/backup.py:91-109 | the walk yields the files and, last, a manifest of their digests and sizes, or the reason of refusal |
| `BackupArchive.StageMembers` | backend/investigation/backup.py:124-144 | the loop over members refuses the first that is unsafe or cannot be created |
| `BackupArchive.CheckManifest` | backend/investigation/backup.py:145-152 | accepts exactly a format 1 manifest of all other files with their sizes and digests |
| `BackupArchive.UnpackVerified` | backend/investigation/backup.py:112-154 | restores the members into an empty target, or names the first reason not to |
| `BackupArchive.StageAccepts` | backend/investigation/backup.py:124-144 | staging succeeds iff the members are the files of one directory tree |
| `BackupArchive.AcceptedArchives` | backend/investigation/backup.py:112-154 | an archive is restored iff it is small enough, forms a tree and is described by its manifest; the result is that tree |
| `BackupArchive.RestoredContents` | backend/investigation/backup.py:112-154 | the restored tree holds every member under its name, and nothing else |
| `BackupArchive.RoundTrip` | backend/investigation/backup.py:91-154 | packing then unpacking restores the files and the manifest iff there are fewer than a million files and no name contains a backslash |
| `BackupArchive.BackslashIsRefused` | backend/investigation/backup.py:130-138 | a directory with one file named a, backslash, b packs without complaint and is refused at restoration |
| `BackupArchive.UnpackAnswers` | backend/investigation/backup.py:112-154 | every refusal in order, by its cause: target, number of members, a member that does not fit, a manifest that is missing, unreadable, of another format or of other files, a wrong size or digest |
| `BackupArchive.FirstMisfit` | backend/investigation/backup.py:124-144 | staging stops at the first member that does not fit with those before it, and says whether it is unsafe or cannot be created |
| `BackupArchive.PackAnswers` | backend/investigation/backup.py:91-109 | a directory is packed unless it holds a symbolic link, or a file or directory in the manifest's place |
| `ReceivedHops.NormalizeReceived` | backend/factories/eml.py:80-112 | the hops are reversed, each with its parsed date, and each delay is the time since the dated hop before it |
| `ReceivedHops.ParseDates` | backend/factories/eml.py:54-77 | every hop keeps its own header date or else the one after its last semicolon, in reversed order |
| `ReceivedHops.HopDates` | backend/factories/eml.py:54-77 | the date of a hop: its own moment, what its text spells, or without a date what the text after the last semicolon spells, or that text |
| `ReceivedHops.SetDelays` | backend/factories/eml.py:93-110 | the pass with a running base time computes those delays |
| `ReceivedHops.DelaysPresentIff` | backend/factories/eml.py:96-106 | a hop has a delay iff it and the oldest hop are dated |
| `ReceivedHops.DelaysAddUp` | backend/factories/eml.py:108-110 | delays sum to the time between oldest and last dated hop: exactly for whole seconds, else within one second per later dated hop |
| `ReceivedHops.DelaySign` | backend/factories/eml.py:108 | truncation towards zero: the sign shows only gaps of a second or more |
| `ReceivedHops.DelayIsWholeSeconds` | backend/factories/eml.py:108 | a delay is the gap to the dated hop before, cut to whole seconds towards zero |

## Left out

- Timestamps (`finished_at`, `updated_at`, CURRENT_TIMESTAMP), error texts and audit texts: no property here reads them.
- JobService.JobQueue.Finish: does not model IOC extraction, `index_analysis`, the assessment and the automatic case title written in the same transaction, because they are other tables, which nothing here reads.
- Exceptions inside `put` after the file exists but before it is remembered for rollback, failing deletions during a rollback, and the partial content of a file whose writer dies: a file appears whole or not at all.
- An exception after the commit, while the connection is closed or by an interrupt: `rollback_files` would then remove files that committed rows name. A fault of the model strikes before the commit.
- Adoption of unfinished analyses without a job at start-up, and the one-time migration of stored evidence.
- The ingestion guard and the existence of the case are parameters of an upload.
- Isolated analysis, its subprocess limits and `run_once`: a worker is whoever holds a claim.
- Scope checks of replies against cases, campaigns and mails are a parameter, as is the latest decision a send requires; decisions themselves are in `Campaigns`.
- The text of an SMTP message, and anything the transport does besides succeeding or failing.
- SQLite's limit on the length of a LIKE pattern and its treatment of NUL characters.
- Status codes and JSON of provider responses around `read_body`, and the trimming of the Content-Encoding header.
- DKIM worker timeouts, its killing, a non-zero exit, unexpected resolver exceptions and the syntax check of reason codes; a signature is a function from key bytes to a judgement.
- Poll limits, provider results (`save_result` may write anything to provider rows), visibility mismatches and purging of enrichments. That at most one submission is pending is not an invariant, since a poll may return an error row to pending.
- Authentication by API token, the role checks of routes, locales, the uniqueness of user names, creation of the encryption key, and normalization of recovery codes.
- Cancelling a pending enrolment, logging out, adding accounts and adding API tokens are events of the runs without a method; withdrawing a single token is left out.
- Login names that look like `mfa:1` or `manage:1` share no counter with those identities in the model.
- Rate limits of requests and uploads use the same fixed window and are not modelled again.
- The parsing of MIME messages and ZIP directories: the model starts from the parsed tree.
- Legacy cases as campaigns' members (`attach_case`, `detach_case`), case routes, and the older campaign routes that are never reached.
- Actions of legacy cases and action details besides scope, pending and revision; audit rows of campaigns.
- That a closed campaign still meets the closure guard is not an invariant: a failed member may be retried and an action of a mail alone may be added after closing.
- Campaign runs start from any tables, after initialization; the migration itself is in `LegacyMigration`.
- Rebuilding of tables and the foreign key check around the migration; a case's emails, notes and events enter as what its queries return.
- The tar format, file modes and ownership, partially written restorations, the database snapshot itself, and key files.
- BackupArchive.RoundTrip: empty directories are not archived, so only the files come back, because `pack` lists files only.
- Mixing dates with and without a time zone, which raises in Python; a date is a number of seconds.
- ReceivedHops.ParseDates: the text after the last semicolon is an input, already trimmed.
- Frontend, exports, search pages, connectivity policy, assessment tables: no protocol, or settled by reading.
