# One Mail: verified models of its sync, write-back and storage protocols

This project models the parts of the One Mail aggregator, Worker and IMAP proxy whose
correctness spans several functions or several runs, and proves what they keep: no mail is
lost between partial failures, a move that was carried out is found again, shared disk space,
tokens and locks stay consistent under every interleaving, and the parsers and renderers
read back what was written.

Check everything with `dafny verify dfyconfig.toml`.

## How it is built

Each component has a function that says what one call does (`GraphSource.SyncFolder`,
`ImapMove.Attempt`, `FleetHistory.Report`, ...). The code's own loops and objects appear as
methods and classes with the source's steps, proved equal to that function. What that function
gives is characterised by lemmas over the raw inputs (the messages, the answers, the bytes, the
positions), whose names end in `Exactly` or `ExactlyWhen`. On top of it a small state machine says what may happen around the call (arrivals, deletions, failing
requests, lost replies, crashes and restarts, other workers), and the main results are
statements over every run of it, proved from an invariant that every step keeps.

| file | component |
|---|---|
| `SyncState.dfy` | the cursor file: watermarks, the bounded seen list, pins; memory copy and disk copy apart |
| `GraphSource.dfy`, `GraphRuns.dfy` | Microsoft Graph folder sync, and whole histories of one folder with what the provider and the Worker answered |
| `CopyUid.dfy`, `CopyUidFaults.dfy`, `CopyUidCodes.dfy` | the COPYUID code: round trips, exactly which texts it refuses, and what every other text maps |
| `ImapMove.dfy`, `MoveRuns.dfy` | the durable IMAP MOVE job, and all its leases |
| `MutationQueue.dfy` | one drain of the job queues |
| `HttpBody.dfy`, `HttpAccept.dfy` | the bounded HTTP/1.1 response reader, and exactly which streams it accepts |
| `FleetHistory.dfy`, `FleetRuns.dfy`, `FleetReports.dfy` | the telemetry table, whole histories of reports, and which reports are refused |
| `AttachmentStorage.dfy` | disk reservations of concurrent uploads |
| `TokenRotation.dfy`, `TokenRuns.dfy` | the config file's refresh tokens and the access-token cache, and all workers under the redemption lock |
| `Retention.dfy` | the scheduled cleanup's lock row and cooldown markers |
| `ImapWatermark.dfy`, `WatermarkRuns.dfy`, `WatermarkLedger.dfy` | the IMAP window and its single watermark, whole histories of one folder, and what their answers allow them to report |
| `AccountProtocol.dfy` | IMAP, POP3 and the fallback pin of one account |
| `Routing.dfy` | the destinations of a configuration, and grouping rows by them |
| `RoutedUpload.dfy`, `UploadRuns.dfy`, `UploadTotals.dfy` | chunked uploads with attachments and counted acknowledgements, when they end how, and what they report |
| `ImapMailbox.dfy` | the proxy's LRU cache and UID index |
| `Migration.dfy` | the restartable migration renderer |
| `Text.dfy`, `Wrappers.dfy`, `Sorting.dfy` | decimals, option and result values, sorting a set |

Calls into the network, databases, clocks and libraries are parameters: a value that says how
each call of a run ends.

## Where the code does not keep what one would expect

For each of these the exact condition is proved over all inputs, and a second lemma gives a
failing run, either a concrete one or one for every input that meets the condition.

- A run of the IMAP window that gets its sizes but not its bodies or its upload, or that fails to
  save at a too-large message, strands mail at or below the watermark exactly when a small
  candidate lies before a too-large one that the scan reaches (`WatermarkRuns.StrandsExactlyWhen`; `WatermarkRuns.StrandedExample`).
- A job whose message did move is reported "failed" when the MOVE's code cannot be read, or
  when a call that verifies or recovers raises what the guards do not catch, such as the
  KeyError of a SELECT without UIDVALIDITY (`MoveRuns.StatusExactly`,
  `CopyUidFaults.ValueFaultExactlyWhen`;
  `MoveRuns.UnreadableCodeGivesUpMovedJob`, `MoveRuns.MissingUidvalidityGivesUpMovedJob`).
- A changed UIDVALIDITY starts the search over, but the recorded watermark is never lowered: of the
  UIDs the resetting run leaves for later, the next run finds exactly those above the old watermark
  (`WatermarkLedger.ResetHidesExactly`; `WatermarkLedger.ResetExample`).
- Mail that arrives after a run left a positive watermark can be passed over by a later "first" sync
  exactly when the file still has a watermark of 0, and then only through a restart
  (`WatermarkLedger.NewMailPassedOverExactlyWhen`, both ways).
- The later leases of a job can report a message that the job did not move exactly when a target
  message other than the moved one has its Message-ID (`MoveRuns.MisnamesExactlyWhen`;
  `MoveRuns.UncheckedJobMayMisname`, a job whose first lease ended before its check). A first
  lease that gets to its MOVE rules that out (`MoveRuns.CheckedJobNeverMisnames`).
- An unreadable config file is passed over in silence; the redemption is then accepted exactly
  when the worker's own copy is current (`TokenRuns.AcceptedExactlyWhen`;
  `TokenRuns.UnreadableFileRejected`).
- A rotated token that was not written is not always recovered: an account can be redeemed again
  exactly as long as the file or a worker still holds its current token
  (`TokenRuns.RedeemableExactlyWhen`). A reply lost after the provider rotated loses the account
  at once, and after a failed write the worker's own next read-back puts the superseded token
  back over the only copy (`TokenRuns.VanishedReplyLosesTheAccount`,
  `TokenRuns.FailedWriteLosesTheAccount`, for every such run).
- The cache serves an access token beyond its end unless that end lies at least a minute and the
  stated lifetime less five minutes ahead or, where the answer states no positive lifetime,
  at least 55 minutes (`TokenRotation.CacheWithinLifetime`;
  `TokenRotation.ShortLivedTokenServedLate`, `TokenRotation.UnstatedLifetimeServedLate`).
- An "auto" account in IMAP is taken to POP3 after a restart exactly when the cursor file on disk
  does not show it in IMAP, its configuration permitting
  (`AccountProtocol.MixesAfterRestartExactlyWhen`; `AccountProtocol.UnsavedEntryMixes`, where the
  save of its UIDVALIDITY failed).
- IMAP history is looked up by a key prefix; two account ids meet in it exactly when one,
  followed by a bar, begins the other (`AccountProtocol.LookupMeetsExactlyWhen`;
  `AccountProtocol.ClashMisleads`, for any two such ids).
- The migration renderer compares column names letter by letter and SQLite does not; a run is
  free of errors exactly when no missing column equals, ignoring case, an existing or another
  missing one
  (`Migration.ErrorFreeExactlyWhen`; `Migration.CaseOnlyClashFails`).
- "Still service the other destinations" (uploader.py:88-89) fails exactly when a chunk reaches
  a malformed attachment with everything before it in its batch stored and delivered: that
  ValueError ends the whole upload (`UploadRuns.AbortsExactlyWhen`;
  `UploadRuns.MalformedPayloadHidesOthers`).
- A PUT gives its reservation back exactly when its last unlink raises nothing but a missing
  file (`AttachmentStorage.Server.Put`); otherwise the whole size stays reserved until the server
  restarts (`AttachmentStorage.UnlinkFailureLeaks`, for every such upload).
- A put into the proxy's message cache raises exactly when the cache has size 0 or less, whatever
  was called before (`ImapMailbox.PutRaisesExactlyWhen`; `ImapMailbox.NoRoomHoldsNothing`).
- Section 7.1.1 of RFC 9112 has recipients parse whitespace before the semicolon of a chunk
  extension; the code reads a size line exactly when it is digits, then nothing or a semicolon
  (`HttpBody.SizeReadExactlyWhen`; `HttpBody.PaddedSizeRefused`, for every padded line).

## Model

| member | source | states |
|---|---|---|
| `SyncStates.AppendSeenBounded` | aggregator/src/one_mail_agg/state.py:119-130 | the seen list never exceeds 2000 entries, never repeats a key and never invents one |
| `SyncStates.FreshBatchSurvives` | aggregator/src/one_mail_agg/state.py:119-130 | trimming drops only older writes: a new batch within the bound is recorded whole |
| `SyncStates.AppendSeenExactly` | aggregator/src/one_mail_agg/state.py:106-130 | the new list holds exactly the values after which fewer than 2000 others were first written, in the order of their first writes |
| `SyncStates.KeysApart` | aggregator/src/one_mail_agg/state.py:57-58 | folders of one account, and accounts without a bar in their ids, never share a key of the state |
| `SyncStates.RaisedExactly` | aggregator/src/one_mail_agg/state.py:69-76 | a watermark rises to a larger UID, and no other key or part of the state changes |
| `SyncStates.SyncState.AddPop3SeenMany` | aggregator/src/one_mail_agg/state.py:138-144 | the new list in memory and on disk, also when the save raises; an empty batch does not even save |
| `SyncStates.SyncState.SetLastUidMax` | aggregator/src/one_mail_agg/state.py:69-76 | the watermark only rises; an equal or smaller UID changes nothing and does not save |
| `GraphSource.UidKeyInjective` | aggregator/src/one_mail_agg/graph_source.py:99-100 | two messages of a folder never share a seen key |
| `GraphSource.UidKeyApart` | aggregator/src/one_mail_agg/graph_source.py:99-100 | nor do messages of different folders, where no account or folder name has a colon |
| `GraphSource.ScanPages` | aggregator/src/one_mail_agg/graph_source.py:241-285 | the page loop ends even when the server repeats a link, with the messages or the exception of the page walk |
| `GraphSource.IdsOf` | aggregator/src/one_mail_agg/graph_source.py:255-272 | the messages of a page are its well-formed items in their order |
| `GraphSource.ScanEndsExactly` | aggregator/src/one_mail_agg/graph_source.py:241-285 | after any unseen pages of fewer than 5000 messages together the scan ends with a failed, malformed, repeated or foreign page, at a page's first seen message, at the last page, or, with more pages to come, at 5000 messages |
| `GraphSource.WalkFindsAnchor` | aggregator/src/one_mail_agg/graph_source.py:250-285 | however a server splits a folder into pages, a scan that ends normally has collected exactly the messages newer than the newest seen one |
| `GraphSource.WalkSucceeds` | aggregator/src/one_mail_agg/graph_source.py:280-285 | a faultless listing whose unseen part stays below the cap is never refused |
| `GraphSource.WalkFirstPage` | aggregator/src/one_mail_agg/graph_source.py:273-274 | a first sync collects a newest part of the folder |
| `GraphSource.CollectPending` | aggregator/src/one_mail_agg/graph_source.py:287-306 | the window to work on and, on a first sync over its limit, the older keys recorded before anything is fetched |
| `GraphSource.FetchBatch` | aggregator/src/one_mail_agg/graph_source.py:323-368 | bodies are fetched oldest first up to the first message that has none; an exception yields nothing |
| `GraphSource.SettlePending` | aggregator/src/one_mail_agg/graph_source.py:397-437 | fetch, upload and commit of one window end in the specified outcome; `GraphSource.SettlesExactly` says what that is |
| `GraphSource.SettlesExactly` | aggregator/src/one_mail_agg/graph_source.py:323-437 | nothing is recorded when a body cannot be fetched or the upload fails; otherwise the oldest messages with a body are acknowledged, too large or dropped as their MIME is at most 30 MiB and decodes, is above it, or does not decode, each list oldest first, and exactly their keys are recorded, on disk too unless that save fails |
| `GraphSource.SettleEffect` | aggregator/src/one_mail_agg/graph_source.py:392-437 | a run that changes the seen list settled the oldest messages of its window without a gap, and wrote no other key |
| `GraphSource.SyncGraphFolder` | aggregator/src/one_mail_agg/graph_source.py:384-437 | one folder's run leaves both copies of the seen list, and what became of each message, as specified, and touches no other folder; `GraphRuns.FirstSyncExactly` and `GraphRuns.LaterSyncExactly` say what that is |
| `GraphRuns.NoMessageStranded` | aggregator/src/one_mail_agg/graph_source.py:227-437 | over every history of syncs, arrivals, deletions, faults, trimming and restarts, every present message at or older than a present seen one is in the ledger of runs: acknowledged, too large, undecodable or passed over by a first sync |
| `GraphRuns.FirstSyncExactly` | aggregator/src/one_mail_agg/graph_source.py:273-306 | a first sync works on the newest messages of the first page up to its limit, records the rest of that page as seen before anything is fetched, and ends with a failed page or save or as its window does |
| `GraphRuns.LaterSyncExactly` | aggregator/src/one_mail_agg/graph_source.py:250-306 | a later sync changes nothing when its scan fails, and otherwise works on the oldest 50 of the messages before the newest seen one |
| `GraphRuns.LedgerIsEarned` | aggregator/src/one_mail_agg/graph_source.py:392-437 | whatever a history reports of a message, an answer in it allowed: acknowledged only by a run whose upload went through and whose body is within the limit and decodes, too large or undecodable only with such a body, passed over only by a first sync beyond its limit or page |
| `GraphRuns.EverySeenHasItsFate` | aggregator/src/one_mail_agg/graph_source.py:227-437 | so over every history from a fresh folder every present message at or older than a present seen one was once given one of these fates by the provider's and the Worker's own answers |
| `GraphRuns.ScanSeesEveryUnhandled` | aggregator/src/one_mail_agg/graph_source.py:236-239 | in every reachable state the anchor scan of an established folder finds every unhandled message |
| `GraphRuns.EstablishedSkipsNothing` | aggregator/src/one_mail_agg/graph_source.py:287-299 | only a first sync passes messages over |
| `GraphRuns.DrainStep` | aggregator/src/one_mail_agg/graph_source.py:300-306 | a faultless run handles exactly the oldest min(50, n) of a backlog of n below the scan cap |
| `GraphRuns.BacklogDrains` | aggregator/src/one_mail_agg/graph_source.py:300-306 | r faultless runs leave max(0, n - 50 r), so ceil(n / 50) runs empty the backlog |
| `GraphRuns.DrainedIsHandled` | aggregator/src/one_mail_agg/graph_source.py:227-240 | an established folder without backlog has every present message handled |
| `CopyUid.ExpandUidSet` | aggregator/src/one_mail_agg/mutation_jobs.py:147-164 | every accepted set has at most 1000 UIDs, none of them 0, and a range over the bound is refused before it is built |
| `CopyUid.ExpandPrinted` | aggregator/src/one_mail_agg/mutation_jobs.py:147-164 | any printed set of at most 1000 UIDs in ascending or descending ranges reads back as the list it was printed from |
| `CopyUid.ExpandTooLarge` | aggregator/src/one_mail_agg/mutation_jobs.py:155-162 | a printed set of more than 1000 UIDs is refused, never truncated |
| `CopyUid.CopyUidRoundTrip` | aggregator/src/one_mail_agg/mutation_jobs.py:167-183 | two equally long UID lists printed as any ranges inside a response text map each source UID to the target UID at the same position (section 3 of RFC 4315) |
| `CopyUid.CopyUidListRoundTrip` | aggregator/src/one_mail_agg/mutation_jobs.py:167-183 | the same for any two lists printed in maximal ascending ranges |
| `CopyUid.TripleUnreadable` | aggregator/src/one_mail_agg/mutation_jobs.py:151-154 | a source set with two colons raises ValueError, which is not the identity error callers expect |
| `CopyUidFaults.ExpandReadsExactlyWhen` | aggregator/src/one_mail_agg/mutation_jobs.py:147-164 | a UID set is accepted exactly when every part is a number or range of numbers without 0 and all parts together stay within 1000 |
| `CopyUidFaults.ExpandFaultsExactlyWhen` | aggregator/src/one_mail_agg/mutation_jobs.py:147-164 | it raises ValueError exactly at a part with an empty, over-long or second-colon number, with only good parts within the bound before it |
| `CopyUidFaults.ValueFaultExactlyWhen` | aggregator/src/one_mail_agg/mutation_jobs.py:167-183 | a response raises ValueError exactly when its code has an over-long UIDVALIDITY, a faulty source set, or a faulty target set after a source set that reads |
| `CopyUidCodes.MatchExactly` | aggregator/src/one_mail_agg/mutation_jobs.py:36 | a code is matched at a place exactly when the keyword in any case, a number and two sets stand there, each after blanks, before a bracket or the end |
| `CopyUidCodes.ExpandExactly` | aggregator/src/one_mail_agg/mutation_jobs.py:147-164 | a set that reads names the UIDs of its parts, part after part and in the direction each is written; any other is the ValueError or the identity error |
| `CopyUidCodes.SplitExactly` | aggregator/src/one_mail_agg/mutation_jobs.py:149 | its parts are what stands between its commas |
| `CopyUidCodes.ParseExactly` | aggregator/src/one_mail_agg/mutation_jobs.py:167-183 | a response maps a UID exactly when its first code has a positive UIDVALIDITY and two sets of one length that read, and then to the target where the UID first stands; it gives nothing exactly when it has no code at its start or after a bracket |
| `ImapMove.ImapClient.ApplyMove` | aggregator/src/one_mail_agg/mutation_jobs.py:243-309 | the client's calls, in the source's order and with its guards, end in the server state and the exception of one specified attempt; `MoveRuns.StatusExactly` and `MoveRuns.AttemptSound` say what that is |
| `MoveRuns.RecoverSound` | aggregator/src/one_mail_agg/mutation_jobs.py:200-205 | recovery by Message-ID after a committed MOVE names a message that is in the target, and it is the moved one exactly when that was not taken away while another with its Message-ID stayed |
| `MoveRuns.AttemptSound` | aggregator/src/one_mail_agg/mutation_jobs.py:243-309 | an attempt that succeeds names a message that then sits in the target under the job's Message-ID, and it is the moved one exactly when the moved one was not taken away while another stayed |
| `MoveRuns.EverySuccessNamesThePlace` | aggregator/src/one_mail_agg/mutation_jobs.py:243-309 | over any number of leases with faults at any call, every success names a message in the target, and it is the one the job's MOVE put there exactly when the state was not ambiguous |
| `MoveRuns.MisnamesExactlyWhen` | aggregator/src/one_mail_agg/mutation_jobs.py:186-309 | later leases of a job can report a wrong place exactly when a target message other than the moved one has its Message-ID |
| `MoveRuns.FirstLeaseClears` | aggregator/src/one_mail_agg/mutation_jobs.py:208-212 | a first lease that reaches its MOVE leaves a target in which only the moved message can answer for its Message-ID |
| `MoveRuns.CheckedJobNeverMisnames` | aggregator/src/one_mail_agg/mutation_jobs.py:256-309 | for such a job every success of every lease names the place of the moved message, whatever others remove |
| `MoveRuns.UncheckedJobMayMisname` | aggregator/src/one_mail_agg/mutation_jobs.py:256-261 | a run of a job without that check whose later lease reports an older copy |
| `MoveRuns.StatusExactly` | aggregator/src/one_mail_agg/mutation_jobs.py:243-309 | the status of any attempt by how its calls end: unsupported exactly when the server's answer lacks MOVE or UIDPLUS; failed exactly when something before the MOVE ends the job, a first lease finds the message absent, or the MOVE, its code, its verification or the recovery escapes the guards; succeeded exactly when the move or the recovery finds its message; a retry waits as the lease's number says |
| `MoveRuns.RetriedExactlyWhen` | aggregator/src/one_mail_agg/mutation_jobs.py:613-645 | and retried exactly when a call before the MOVE broke off, a later lease finds another UIDVALIDITY, or the outcome of the MOVE stays open |
| `MoveRuns.IssuedExactlyWhen` | aggregator/src/one_mail_agg/mutation_jobs.py:278-283 | a MOVE is issued by exactly the attempts whose calls before it all pass with the message still there |
| `MoveRuns.NeverFailedAfterMove` | aggregator/src/one_mail_agg/mutation_jobs.py:613-645 | from the lease that issued a MOVE on, while faults are of the transport and codes can be read, every lease succeeds or asks for another after its wait, unless the server then denies the capability a move needs |
| `MoveRuns.UnreadableCodeGivesUpMovedJob` | aggregator/src/one_mail_agg/mutation_jobs.py:278-309 | a job whose message moved is given up over any code with two colons in its source set |
| `MoveRuns.MissingUidvalidityGivesUpMovedJob` | aggregator/src/one_mail_agg/mutation_jobs.py:190-191 | and over a SELECT without UIDVALIDITY when the move is verified or recovered |
| `ImapMove.BackoffGrows` | aggregator/src/one_mail_agg/mutation_jobs.py:634-637 | retries wait five seconds to five minutes, never less than the time before |
| `MoveRuns.BackoffExactly` | aggregator/src/one_mail_agg/mutation_jobs.py:634-637 | the wait starts at five seconds and doubles with each lease up to five minutes |
| `MutationQueue.ProcessMutationJobs` | aggregator/src/one_mail_agg/mutation_jobs.py:574-649 | every claimed job of every queue is executed or answered once and in order; the entries and account fetches are the specified ones, the counters those of the reports that arrived; it returns normally exactly when every claim, every account fetch made and every report went well |
| `MutationQueue.ListIsFetchedOnce` | aggregator/src/one_mail_agg/mutation_jobs.py:600-611 | the account list is fetched with success at most once in a drain, and every later job is judged by that one list |
| `MutationQueue.UnexecutedExactlyWhen` | aggregator/src/one_mail_agg/mutation_jobs.py:613-627 | a job without local credentials is executed, failed or left for a retry exactly as the fetched list names its account, lacks it, or could not be fetched at this queue or before |
| `MutationQueue.EveryEntryEarned` | aggregator/src/one_mail_agg/mutation_jobs.py:613-645 | every entry of a drain is what its job earns: executed with local credentials where there are any, else as the first list fetched up to its queue names its account or lacks it, else a retry in five seconds; and whether its report arrived |
| `MutationQueue.AskedExactly` | aggregator/src/one_mail_agg/mutation_jobs.py:600-611 | the list is asked for at exactly the queues that need it, up to the first that gets it |
| `MutationQueue.CleanExactlyWhen` | aggregator/src/one_mail_agg/mutation_jobs.py:582-649 | a drain is clean exactly when every claim answered, the list was fetched wherever it was needed and missing, and no report was lost |
| `MutationQueue.ProcessQueue` | aggregator/src/one_mail_agg/mutation_jobs.py:613-645 | each job of a queue gets its specified status, and is counted exactly when its report arrives |
| `MutationQueue.FetchAccounts` | aggregator/src/one_mail_agg/mutation_jobs.py:600-611 | the list is asked for exactly when a job lacks local credentials and nobody has the list yet; fetched accounts never replace local ones |
| `MutationQueue.TallyConserves` | aggregator/src/one_mail_agg/mutation_jobs.py:581-645 | claimed jobs are the succeeded, failed, retried and unsupported ones and those whose report was lost |
| `MutationQueue.TallyExactly` | aggregator/src/one_mail_agg/mutation_jobs.py:581-645 | each counter is the number of arrived reports of its own status |
| `HttpBody.StreamReader.Line` | aggregator/src/one_mail_agg/fleet_metrics.py:162-166 | a line ends in carriage return and line feed within its limit, and reading it consumes just that |
| `HttpBody.ReadChunkedBody` | aggregator/src/one_mail_agg/fleet_metrics.py:196-211 | the chunk loop fills the body the specified decoder returns, or raises its error |
| `HttpBody.ReadResponse` | aggregator/src/one_mail_agg/fleet_metrics.py:169-224 | the whole reader, status line to body, against the specified response |
| `HttpBody.ChunksRoundTrip` | aggregator/src/one_mail_agg/fleet_metrics.py:196-211 | any split into non-empty chunks, with any extensions, size spellings and trailers, decodes to the concatenated data (section 7.1 of RFC 9112) |
| `HttpBody.SizeReadExactlyWhen` | aggregator/src/one_mail_agg/fleet_metrics.py:196-203 | a chunk-size line is read exactly when it is hexadecimal digits followed by nothing or by a semicolon and anything; any other is an invalid chunk |
| `HttpBody.PaddedSizeRefused` | aggregator/src/one_mail_agg/fleet_metrics.py:196-203 | whitespace before the semicolon of a chunk extension is refused |
| `HttpBody.FramingsAgree` | aggregator/src/one_mail_agg/fleet_metrics.py:190-224 | the same body sent in chunks or whole under Content-Length decodes to that body |
| `HttpBody.OversizeRejected` | aggregator/src/one_mail_agg/fleet_metrics.py:199-224 | a body over the limit is refused under either framing |
| `HttpBody.ResponseBounded` | aggregator/src/one_mail_agg/fleet_metrics.py:169-224 | whatever the peer sends, no returned body exceeds the limit |
| `HttpAccept.AcceptedExactlyWhen` | aggregator/src/one_mail_agg/fleet_metrics.py:169-224 | the reader returns a body exactly for a 200 status line, header lines within 32 KiB that give no framing field twice, and a body of at most 512 KiB in the one framing they announce, and then that body and what follows it |
| `HttpAccept.OtherStatusRefused` | aggregator/src/one_mail_agg/fleet_metrics.py:170-174 | any other status line is refused with its digits when it has the shape of one, and as no status line otherwise |
| `HttpAccept.LineReadExactlyWhen` | aggregator/src/one_mail_agg/fleet_metrics.py:162-166 | a line is the text up to the first line feed, with a carriage return before it, within its limit |
| `HttpAccept.FieldExactly` | aggregator/src/one_mail_agg/fleet_metrics.py:180-187 | the name of a header line is what stands before its first colon, the value what stands behind without the blanks around, both in small letters |
| `HttpAccept.HexExactly` | aggregator/src/one_mail_agg/fleet_metrics.py:197-200 | hexadecimal digits of either case have their values, most significant first |
| `HttpAccept.HexExactlyWhen` | aggregator/src/one_mail_agg/fleet_metrics.py:197-200 | and these 22 characters are the only ones |
| `HttpAccept.ChunksAre` | aggregator/src/one_mail_agg/fleet_metrics.py:196-211 | whatever the chunk decoder accepts is a sequence of legal chunks and an ending, and the body their data |
| `HttpAccept.LineRefused` | aggregator/src/one_mail_agg/fleet_metrics.py:162-166 | a line is a transport failure exactly when no line feed comes within the stream's limit, and otherwise invalid framing |
| `HttpAccept.HeaderRefused` | aggregator/src/one_mail_agg/fleet_metrics.py:177-184 | a header line without a colon, beyond 32 KiB in all, or giving a framing field again ends the read as invalid headers |
| `HttpAccept.EncodedRefused` | aggregator/src/one_mail_agg/fleet_metrics.py:189-191 | a content encoding other than identity is unsupported |
| `HttpAccept.TransferRefused` | aggregator/src/one_mail_agg/fleet_metrics.py:193-215 | a transfer encoding other than chunks, or beside a length, is invalid framing |
| `HttpAccept.LengthRefused` | aggregator/src/one_mail_agg/fleet_metrics.py:216-220 | a length that is no number or above 512 KiB is too large; one of more than 4300 digits, or beyond the stream's end, is a transport failure |
| `HttpAccept.UnframedBody` | aggregator/src/one_mail_agg/fleet_metrics.py:221-224 | without framing the body is the rest of the stream, up to 512 KiB |
| `HttpAccept.ChunkRefused` | aggregator/src/one_mail_agg/fleet_metrics.py:196-211 | a chunk that is not there in full is a transport failure, and one not followed by carriage return and line feed an invalid chunk |
| `FleetHistory.History.Record` | aggregator/src/one_mail_agg/fleet_metrics.py:393-456 | a report is stored whole, or the table is unchanged; what it stores, answers and refuses is said by `FleetRuns.VerdictMeaning`, `FleetRuns.HighWaterMarksSurvive`, `FleetReports.RefusedExactlyWhen` and `FleetReports.TableBounded` |
| `FleetRuns.UpsertHigh` | aggregator/src/one_mail_agg/fleet_metrics.py:437-446 | overwriting a row in place cannot lower a high-water mark the new row carries |
| `FleetRuns.RetainedRankFits` | aggregator/src/one_mail_agg/fleet_metrics.py:447-450 | with at most twelve accounts the size bound never removes a row of the last eight days |
| `FleetRuns.HighWaterMarksSurvive` | aggregator/src/one_mail_agg/fleet_metrics.py:421-450 | after any reports, each counter's stored maximum of a retained day is the maximum of every value ever accepted for it |
| `FleetRuns.StreakCounts` | aggregator/src/one_mail_agg/fleet_metrics.py:382-390 | the streak reaches exactly as far back as adjacent buckets hold a valid latest sample |
| `FleetRuns.VerdictMeaning` | aggregator/src/one_mail_agg/fleet_metrics.py:368-390 | a sample is authoritative exactly when its snapshot says so and reports no issue, its day is that of the observation and of now, it is at most 900 seconds old, all counters are there, it has a database, and no counter is below one accepted before for its day; the issues name which of these failed; the streak counts the adjacent buckets whose latest sample was valid, and three make it eligible |
| `FleetReports.RefusedExactlyWhen` | aggregator/src/one_mail_agg/fleet_metrics.py:402-436 | a report is refused exactly when it has no snapshot or more than twelve, two of one account, or a snapshot with a counter above 2^53 - 1, more than ten databases or an observation older than one accepted for its day; the first such problem is the error |
| `FleetReports.TableBounded` | aggregator/src/one_mail_agg/fleet_metrics.py:418-450 | after a report the table has at most 27648 rows with different keys, each of the report or of the last eight days |
| `AttachmentStorage.StepKeepsFloor` | aggregator/src/one_mail_agg/storage_server.py:66-88 | each step of each request keeps room above the floor for all that active uploads may still write |
| `AttachmentStorage.FloorHolds` | aggregator/src/one_mail_agg/storage_server.py:66-80 | for every interleaving free space stays at or above the floor, the release never clamps, and reserved bytes are the sizes of the active uploads and of those whose unlink failed |
| `AttachmentStorage.AdmittedExactlyWhen` | aggregator/src/one_mail_agg/storage_server.py:66-76 | in every reachable state an upload is admitted exactly when it leaves the floor after all that active uploads have reserved and others have leaked |
| `AttachmentStorage.UnlinkFailureLeaks` | aggregator/src/one_mail_agg/storage_server.py:223-229 | an upload whose temporary file cannot be unlinked keeps its whole size reserved in every state after it |
| `AttachmentStorage.StepConserves` | aggregator/src/one_mail_agg/storage_server.py:190-246 | every byte of the volume is free, stored, temporary, left behind by a failed unlink or waiting to be reclaimed |
| `AttachmentStorage.Server.ReserveUpload` | aggregator/src/one_mail_agg/storage_server.py:66-76 | admits exactly what leaves the floor after everything reserved, and refuses when the free space is unknown |
| `AttachmentStorage.Server.ReleaseUpload` | aggregator/src/one_mail_agg/storage_server.py:78-80 | gives the reservation back, never below zero |
| `AttachmentStorage.Server.StorageHealthy` | aggregator/src/one_mail_agg/storage_server.py:82-88 | healthy exactly when an empty upload would be admitted |
| `AttachmentStorage.Server.Receive` | aggregator/src/one_mail_agg/storage_server.py:196-208 | the read loop yields exactly the declared bytes, or a problem when the body or the disk ends before |
| `AttachmentStorage.Server.Put` | aggregator/src/one_mail_agg/storage_server.py:175-229 | the named file becomes exactly the declared bytes of the body or nothing changes, when that happens and what the peer is answered, and the reservation is given back exactly when no exception escapes the unlink |
| `TokenRotation.RewriteTouchesOneToken` | aggregator/src/one_mail_agg/token_store.py:83-121 | a rewrite changes one token and no other entry, field or account |
| `TokenRotation.ConfigFile.RefreshRt` | aggregator/src/one_mail_agg/token_store.py:58-80 | the worker takes over the stored token; an unreadable file, a missing entry or an empty token leave its own |
| `TokenRotation.ReadBackExactly` | aggregator/src/one_mail_agg/token_store.py:58-80 | the token taken over is that of the first entry of the id with an oauth object, when the file can be read and that token is not empty |
| `TokenRotation.ConfigFile.RewriteRefreshToken` | aggregator/src/one_mail_agg/token_store.py:83-121 | the first entry of the account gets the token, and the file is replaced whole or not at all |
| `TokenRotation.ConfigFile.HandleRotated` | aggregator/src/one_mail_agg/oauth.py:22-33 | a rotated token reaches memory first and then the file; a failed write raises |
| `TokenRotation.MsaCache.AccessToken` | aggregator/src/one_mail_agg/oauth.py:69-91 | a live entry under the token now held answers; otherwise nothing is cached before the rotation is stored, and the entry moves to the new token |
| `TokenRotation.RecachedExactly` | aggregator/src/one_mail_agg/oauth.py:86-90 | one cache entry is written, that of a token given up is gone, and no other changes |
| `TokenRotation.CacheWithinLifetime` | aggregator/src/one_mail_agg/oauth.py:69-91 | whatever lifetime an answer states and however long its token lives, the cache serves it at no instant after its end exactly when that lies a minute and the stated lifetime less 300 seconds ahead, or 3300 seconds where no positive lifetime is stated |
| `TokenRotation.ShortLivedTokenServedLate` | aggregator/src/one_mail_agg/oauth.py:83-84 | a token stated and good for 30 seconds is served after 45 |
| `TokenRotation.UnstatedLifetimeServedLate` | aggregator/src/one_mail_agg/oauth.py:83-84 | a token good for 1800 seconds whose answer states no lifetime is served after 2000 |
| `TokenRuns.FileCurrentExactlyWhen` | aggregator/src/one_mail_agg/token_store.py:83-121 | in every reachable state, failing reads and writes, lost replies and restarts included, the file holds the current token of exactly the accounts whose last rotation was written, and a cached access token is the asking account's own |
| `TokenRuns.RotationIsNeverLost` | aggregator/src/one_mail_agg/oauth.py:164-171 | with any number of stale workers, as long as no reply is lost, no write fails and no restart comes before a write, a free lock means a file that is current for every account it lists |
| `TokenRuns.AcceptedExactlyWhen` | aggregator/src/one_mail_agg/token_store.py:58-80 | in every reachable state a read-back leads to an accepted redemption exactly when the file could be read and is not behind, or could not be read and the worker's own copy is current |
| `TokenRuns.ReadableFileAccepted` | aggregator/src/one_mail_agg/oauth.py:164-171 | while no rotation is lost and every read of the file succeeds, every redemption presents the current token |
| `TokenRuns.UnreadableFileRejected` | aggregator/src/one_mail_agg/token_store.py:58-80 | a run in which a stale worker cannot read the file and its redemption is turned away |
| `TokenRuns.RedeemableExactlyWhen` | aggregator/src/one_mail_agg/oauth.py:164-171 | an account with a worker can be redeemed again exactly when the file or some worker holds its current token; otherwise no continuation ever can |
| `TokenRuns.VanishedReplyLosesTheAccount` | aggregator/src/one_mail_agg/oauth.py:22-33 | a reply lost after the provider rotated leaves the current token nowhere |
| `TokenRuns.FailedWriteLosesTheAccount` | aggregator/src/one_mail_agg/token_store.py:58-80 | after a failed write the worker's next successful read-back, or a restart, discards the only copy of the current token |
| `Retention.Store.AcquireRetentionLock` | worker/src/scheduled.ts:35-51 | the lock is taken exactly when the row is missing or expired, and held only if the reply arrived |
| `Retention.Store.ReleaseRetentionLock` | worker/src/scheduled.ts:53-60 | only the owner's row is deleted |
| `Retention.Store.Scheduled` | worker/src/scheduled.ts:94-209 | when an invocation starts a cleanup and when it succeeds, and what lock and markers it leaves |
| `Retention.CoolingExactlyWhen` | worker/src/scheduled.ts:117-127 | an invocation holds back exactly when one of the two markers is a positive time less than six hours ago |
| `Retention.StartsExactlyWhenDue` | worker/src/scheduled.ts:94-135 | whatever happened before, an undisturbed invocation starts a cleanup exactly when the lock row is free or expired and neither marker is recent |
| `Retention.CleanupsApart` | worker/src/scheduled.ts:94-135 | for every interleaving, crash and lost reply, cleanups never overlap and their starts are six hours apart, failed ones included |
| `Retention.LockHeldExactlyWhen` | worker/src/scheduled.ts:35-60 | through any calls of any invocations, whatever their clocks, a lock stays with its owner exactly as long as nobody reads a time past its expiry and the owner has not released it |
| `Retention.ReleaseIsOwn` | worker/src/scheduled.ts:53-60 | in every reachable state a release frees the releasing invocation's own lock |
| `ImapWatermark.CandidatesExact` | aggregator/src/one_mail_agg/imap_base.py:97-98 | the search and its filter give exactly the present UIDs above the watermark, in order |
| `ImapWatermark.ScanCandidates` | aggregator/src/one_mail_agg/imap_base.py:118-143 | the size loop picks the specified window, raises the watermark to the too-large messages it passed, and ends at the first whose save fails |
| `ImapWatermark.FetchWindow` | aggregator/src/one_mail_agg/imap_base.py:86-146 | selection, search, first-sync limit, sizes and window leave both copies of the state from which delivery completes the specified run, or the failure it ends with; `WatermarkLedger.SkippedExactly`, `WatermarkRuns.WindowExactly` and `WatermarkLedger.SavesExactly` say what that is |
| `ImapWatermark.SyncFolder` | aggregator/src/one_mail_agg/sync.py:108-131 | one folder's run: both copies of the watermark, acknowledged and dropped messages, and which call or save failed, as specified; `WatermarkLedger.ReportsExactly` says what is reported |
| `ImapWatermark.FolderRun` | aggregator/src/one_mail_agg/imap_base.py:97-146 | a run splits the UIDs above the watermark into passed over, settled and left for later, each above the ones before, and the watermark stays within the first two |
| `WatermarkLedger.SkippedExactly` | aggregator/src/one_mail_agg/imap_base.py:106-112 | with an unchanged UIDVALIDITY and a watermark above 0 a run passes over nothing; a first sync passes over exactly the present UIDs with at least `initial_sync_limit` present ones above them |
| `WatermarkLedger.ReportsExactly` | aggregator/src/one_mail_agg/sync.py:108-131 | delivered are exactly the picked messages that decode and dropped those that do not, once the bodies came and the upload went through, and nothing otherwise; picked are small and too-large ones large UIDs above the watermark |
| `WatermarkLedger.SavesExactly` | aggregator/src/one_mail_agg/state.py:69-81 | after a run in which no save failed the file is what the process has; if all saves succeed none fails; if none can, the file stays as it was |
| `WatermarkLedger.FailureNamed` | aggregator/src/one_mail_agg/sync.py:108-131 | the failure a run ends with is the first call that went wrong |
| `WatermarkLedger.RunTouchesOneFolder` | aggregator/src/one_mail_agg/imap_base.py:86-146 | a run changes its own folder's watermark and UIDVALIDITY alone |
| `WatermarkLedger.ResetHidesExactly` | aggregator/src/one_mail_agg/imap_base.py:86-98 | after a changed UIDVALIDITY a run splits all present UIDs, and of those it leaves for later the next one finds exactly the UIDs above the old watermark |
| `WatermarkLedger.ResetExample` | aggregator/src/one_mail_agg/imap_base.py:86-98 | a run with watermark 100 and a changed UIDVALIDITY after which UID 1 is never searched for |
| `WatermarkRuns.UnknownSizeIsABoundary` | aggregator/src/one_mail_agg/imap_base.py:126-132 | no window pass moves the watermark to or past a UID of unknown size |
| `WatermarkRuns.WindowExactly` | aggregator/src/one_mail_agg/imap_base.py:118-143 | which UIDs a window picks and which it passes as too large, in terms of the sizes, counts and bytes of the candidates up to each |
| `WatermarkRuns.NothingBelowTheWatermark` | aggregator/src/one_mail_agg/imap_base.py:97-146 | over every history of runs, failing saves and restarts with a fixed UIDVALIDITY, every present UID at or below the watermark is in the ledger of runs (acknowledged, dropped, too large, passed over) or stranded; the next search finds every other unhandled one; and nothing is stranded as long as no run fails late with a small candidate before a too-large one |
| `WatermarkLedger.LedgerIsEarned` | aggregator/src/one_mail_agg/imap_base.py:97-146 | whatever a history reports of a UID, the answers of one of its runs allowed: delivered or dropped only with a small body and a fetch and upload that went through, too large only with such a size, passed over only at watermark 0 with the limit's number of present UIDs above it |
| `WatermarkLedger.EveryUidHasItsFate` | aggregator/src/one_mail_agg/imap_base.py:97-146 | so from an empty state every present UID at or below the watermark was given its fate by some run's answers, or is stranded |
| `WatermarkLedger.PositiveMarkSkipsNothing` | aggregator/src/one_mail_agg/imap_base.py:106-112 | while the watermark is above 0, and the file's too or nothing restarts, no history passes over any UID |
| `WatermarkLedger.NewMailPassedOverExactlyWhen` | aggregator/src/one_mail_agg/imap_base.py:106-112 | after a run left a positive watermark, mail that arrives later can be passed over exactly when the file's watermark is still 0, and only through a restart |
| `WatermarkRuns.MarkFallsOnlyByRestart` | aggregator/src/one_mail_agg/state.py:69-76 | the watermark falls only by a restart, and then to that of the file |
| `WatermarkRuns.StrandsExactlyWhen` | aggregator/src/one_mail_agg/imap_base.py:134-138 | a run leaves an undelivered UID at or below the watermark exactly when it fails after its sizes, or at a save in the size loop, and a small candidate lies before a too-large one that the loop reaches |
| `WatermarkRuns.StrandedExample` | aggregator/src/one_mail_agg/imap_base.py:134-138 | such a run: one small message, one too large above it, and a failing upload |
| `AccountProtocol.FallBack` | aggregator/src/one_mail_agg/sync.py:244-256 | pins after a successful POP3 sync only, in memory also when the save fails; an unsafe call raises and changes nothing |
| `AccountProtocol.SyncAccount` | aggregator/src/one_mail_agg/sync.py:204-241 | which protocol one sync uses, whether it raises, and the pins and history it leaves in memory and on disk, whichever saves fail |
| `AccountProtocol.SyncFacts` | aggregator/src/one_mail_agg/sync.py:204-256 | whichever saves fail, entering IMAP leaves history and no pin in memory, and under "auto" POP3 is used only where memory does not show the account in IMAP |
| `AccountProtocol.SyncExactly` | aggregator/src/one_mail_agg/sync.py:204-256 | POP3 is used exactly as configured or pinned, or after an abort or refused unsafe login of an "auto" INBOX-only account without OAuth, not of a source kept to IMAP, before any SELECT or recorded UIDVALIDITY; when IMAP is entered, whether the account ends pinned, and when a sync raises |
| `AccountProtocol.EnteredExactly` | aggregator/src/one_mail_agg/imap_base.py:86-95 | of each folder the last selection that got past SELECT is what is recorded, and no other key changes |
| `AccountProtocol.UnsavedSync` | aggregator/src/one_mail_agg/state.py:83-86 | when no save succeeds the file stays as it was |
| `AccountProtocol.FallsBackExactlyWhen` | aggregator/src/one_mail_agg/sync.py:35-53 | a sync of an account that may fall back can end in POP3 exactly when memory does not show it in IMAP |
| `AccountProtocol.OneNamespace` | aggregator/src/one_mail_agg/sync.py:35-53 | in every run of syncs, config edits, failing saves and restarts no "auto" POP3 sync follows an entry into IMAP unless a restart forgot it, and with every save succeeding nothing is forgotten |
| `AccountProtocol.MixesAfterRestartExactlyWhen` | aggregator/src/one_mail_agg/sync.py:35-53 | a restart can lead an account in IMAP to POP3 exactly when the file on disk does not show it there |
| `AccountProtocol.UnsavedEntryMixes` | aggregator/src/one_mail_agg/state.py:83-86 | a run: the save at the first SELECT fails, mail is fetched by IMAP, the process restarts, and a sync ends in POP3 |
| `AccountProtocol.PinnedNeverHasHistory` | aggregator/src/one_mail_agg/state.py:88-97 | whatever saves fail, neither memory nor disk ever has a pinned account with IMAP history when its id clashes with none that entered IMAP |
| `AccountProtocol.LookupMeetsExactlyWhen` | aggregator/src/one_mail_agg/state.py:88-97 | a key of one account can answer another's history lookup exactly when one id followed by a bar begins the other |
| `AccountProtocol.ClashMisleads` | aggregator/src/one_mail_agg/state.py:88-97 | for any two clashing ids one IMAP sync makes the other account look as if it had history |
| `Routing.BuildConfig` | aggregator/src/one_mail_agg/config.py:207-240 | a configuration is accepted exactly when no two destinations share an id or an address and no account is named twice, and then maps each account to its shard |
| `Routing.SameAddressExactlyWhen` | aggregator/src/one_mail_agg/config.py:213-227 | two addresses are the same when they differ in the case of ASCII letters alone |
| `Routing.RoutedToItsShard` | aggregator/src/one_mail_agg/config.py:246-250 | a row goes to a shard exactly when it is not routed mail and that shard names its account, and otherwise to the primary |
| `Routing.RoutedPartitions` | aggregator/src/one_mail_agg/config.py:246-250 | every row of a batch belongs to one destination and to no other |
| `Routing.RoutedInOrder` | aggregator/src/one_mail_agg/uploader.py:45-47 | a destination's rows stand in the order of the batch, each row once |
| `Routing.OrderByFirst` | aggregator/src/one_mail_agg/uploader.py:45-47 | a destination comes before another when its first row does |
| `Routing.GroupRows` | aggregator/src/one_mail_agg/uploader.py:45-47 | each destination's group is its rows in order, destinations in the order they first occur |
| `RoutedUpload.PostChunk` | aggregator/src/one_mail_agg/uploader.py:61-87 | the attempts for a chunk end at the first acknowledgement or quota refusal or at the limit, and only an acknowledgement is counted |
| `UploadTotals.TriesExactly` | aggregator/src/one_mail_agg/uploader.py:61-87 | the attempts are made one after the other until an acknowledgement or quota refusal ends them or the limit is reached, each answered by the network |
| `RoutedUpload.StorePayloads` | aggregator/src/one_mail_agg/uploader.py:101-190 | the attachments of a chunk are stored in order until one is malformed, too large, refused or wrongly acknowledged |
| `RoutedUpload.UploadBatch` | aggregator/src/one_mail_agg/uploader.py:50-92 | a destination's POSTs and end are those of its chunks in order up to the first that is not delivered; the counts are sums over its acknowledged chunks |
| `UploadRuns.BatchAcked` | aggregator/src/one_mail_agg/uploader.py:50-92 | the rows a destination acknowledges are a prefix of its batch, all of it exactly when no chunk failed, and every POST is its own and no larger than a chunk |
| `RoutedUpload.Upload` | aggregator/src/one_mail_agg/uploader.py:40-98 | an upload is rejected, abandoned, failed or complete as its specified run, with the run's POSTs and failures and the sums over its acknowledged chunks |
| `UploadTotals.TalliedExactlyWhen` | aggregator/src/one_mail_agg/uploader.py:63-79 | the counters of an upload are inserted and skipped mail, or upserted folders, summed over the acknowledged answers, a missing folder counter standing for the whole chunk |
| `UploadTotals.BatchStopsExactly` | aggregator/src/one_mail_agg/uploader.py:50-92 | a batch that does not get through acknowledges its rows up to the first chunk that is not stored and acknowledged, and reports of that chunk an escape, a refused attachment or the last answer |
| `UploadTotals.FailureExactly` | aggregator/src/one_mail_agg/uploader.py:88-98 | every failure an upload reports is that of the chunk at which its destination's rows stop |
| `UploadRuns.AbortsExactlyWhen` | aggregator/src/one_mail_agg/uploader.py:50-120 | an upload is abandoned exactly when a chunk of some destination reaches a malformed attachment, everything before it in that batch stored and delivered |
| `UploadRuns.MalformedPayloadHidesOthers` | aggregator/src/one_mail_agg/uploader.py:50-120 | such an upload: a deliverable row of another destination is never sent |
| `UploadRuns.CompleteExactlyWhen` | aggregator/src/one_mail_agg/uploader.py:93-98 | it returns normally exactly when every chunk of every destination is stored and acknowledged |
| `UploadRuns.EveryDestinationSettled` | aggregator/src/one_mail_agg/uploader.py:88-98 | unless abandoned, it leaves every destination with all its rows acknowledged, or with a prefix and a recorded failure |
| `UploadRuns.DestinationSettled` | aggregator/src/one_mail_agg/uploader.py:50-98 | an abandoned one has settled the destinations before the malformed attachment and sent nothing to those after it |
| `UploadRuns.QuotaEndsADestination` | aggregator/src/one_mail_agg/uploader.py:81-87 | nothing follows a quota refusal at its destination, and no POST carries more rows than a chunk |
| `ImapMailbox.MessageCache.Get` | smtp_proxy_server/imap_mailbox.py:30-34 | a hit returns the message and becomes the newest entry; a miss changes nothing |
| `ImapMailbox.MessageCache.Put` | smtp_proxy_server/imap_mailbox.py:36-43 | the new entries after a put, the oldest one making room, and the KeyError of a cache without any |
| `ImapMailbox.HoldsTheMostRecent` | smtp_proxy_server/imap_mailbox.py:23-50 | after any calls the cache holds the most recently touched distinct keys, as many as fit, in touch order, each with its last put value |
| `ImapMailbox.OrderedByLastTouch` | smtp_proxy_server/imap_mailbox.py:30-43 | that order is the order of the keys' last touches |
| `ImapMailbox.NoRoomHoldsNothing` | smtp_proxy_server/imap_mailbox.py:40-43 | a cache of size 0 or less stays empty |
| `ImapMailbox.PutRaisesExactlyWhen` | smtp_proxy_server/imap_mailbox.py:36-43 | after any calls, the next put raises KeyError exactly when the cache has size 0 or less |
| `ImapMailbox.SimpleMailbox.BuildUidIndex` | smtp_proxy_server/imap_mailbox.py:123-158 | the index is strictly ascending and holds exactly the identifiers of the pages read, whatever they are |
| `ImapMailbox.IndexIsComplete` | smtp_proxy_server/imap_mailbox.py:137-153 | against an unchanged backend it holds every identifier, one entry a message when they are distinct |
| `ImapMailbox.SimpleMailbox.UidToSeq` | smtp_proxy_server/imap_mailbox.py:175-180 | the bisection finds the UID's number exactly when the index has it |
| `ImapMailbox.NumbersAreInverse` | smtp_proxy_server/imap_mailbox.py:169-180 | on an ascending index the two numberings are inverse to each other (section 2.3.1 of RFC 3501) |
| `ImapMailbox.SimpleMailbox.ResolveMessageSet` | smtp_proxy_server/imap_mailbox.py:182-212 | the resolved list, range after range, in UID or in sequence numbers |
| `ImapMailbox.ResolvedExactly` | smtp_proxy_server/imap_mailbox.py:182-212 | the resolved list is what its ranges name, range after range and ascending in each: the UIDs or the numbered messages between the bounds, a missing upper bound being that of the mailbox |
| `ImapMailbox.RangesAgree` | smtp_proxy_server/imap_mailbox.py:197-210 | a range of sequence numbers names the messages that the range of their UIDs names |
| `Migration.RenderMigration` | db/render_idempotent_d1_migration.py:68-93 | the missing columns' statements in order and then all others; nothing for a table that does not exist; an error without any such statement |
| `Migration.RenderExactly` | db/render_idempotent_d1_migration.py:68-93 | an error exactly when the migration adds no column; nothing for a table that does not exist; otherwise every addition of a missing column and then every other statement, each once and in its order, by positions in the migration |
| `Migration.LivingRunDoesTheRest` | db/render_idempotent_d1_migration.py:85-93 | after any number of cut runs the run that lives carries out the additions still missing and then every other statement, each once and in its order, on a table that has every column |
| `Migration.ErrorFreeExactlyWhen` | db/render_idempotent_d1_migration.py:78-83 | a clean run succeeds exactly when no missing column equals, ignoring case, an existing or another missing one |
| `Migration.CaseOnlyClashFails` | db/render_idempotent_d1_migration.py:78-83 | a column that differs in case alone is rendered and fails |
| `Migration.RunIsProgress` | db/render_idempotent_d1_migration.py:68-93 | a run that dies anywhere leaves a table from which a clean run ends in the same columns |
| `Migration.Restartable` | db/render_idempotent_d1_migration.py:68-93 | dying any number of times never makes a later run add an existing column, and the run that lives leaves the columns of one clean run |
| `Migration.CleanRunIsFinal` | db/render_idempotent_d1_migration.py:85-93 | after a clean run no column is missing |

## Left out

- MIME, header and HTML parsing: normalisation either yields a message or drops it.
- Graph listings that change while they are paged: one scan sees one snapshot, and message ids carry no surrounding space.
- Partial acknowledgements inside a failed upload, in the Graph and IMAP histories: a failed upload counts as nothing acknowledged.
- A changed UIDVALIDITY in the IMAP histories: the statements over whole histories fix it; a single run with a changed one is `WatermarkLedger.ResetHidesExactly`.
- The loop of `sync_imap` over several folders with its isolation of secondary ones, and the folder catalog.
- Flag, delete and Graph mutations, and the projection sent with a result.
- Untruthful COPYUID codes: a code that maps the moved message names the UID the server gave it. Where an unexpected exception of a call comes from (a missing UIDVALIDITY, a Message-ID that cannot be encoded) is not modelled; any call may end in one.
- User-managed accounts' token write-back, and the JSON of token replies beyond whether `expires_in` is a number.
- JSON decoding of telemetry bodies, and instants as text: times are seconds and days are numbers.
- Sockets, TLS, request timeouts and the request-slot semaphore of the storage server; its restarts, which forget reservations, and the temporary files a killed process leaves.
- Rounding of files to disk blocks, and the space directories take.
- Mirror, backup and send-quota work in the scheduled handler, which runs inside or before the modelled section.
- Sleeping between upload attempts, and the metadata written into a row for its stored attachments.
- Recognising `ADD COLUMN` statements in migration text: a migration is its list of statements, the other statements do not change columns, and definitions are ones SQLite can add (no NOT NULL without a default, no PRIMARY KEY, no UNIQUE).
- Persisted message flags, SEARCH and the parsing of fetched messages in the proxy's mailbox.
- POP3 transport, IDLE workers, outbound SMTP, the frontend, routing and admin handlers: they would add only easier members.
- MutationQueue.ProcessMutationJobs: does not say which account object a job is executed with beyond local or fetched, because credentials are opaque here.
