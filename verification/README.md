# Knowledge Hub: a verified model of its protocols and transformations

The knowledge hub is a center with a database, workers that execute tasks, and edge nodes that
report files, upload text and keep replicas. This project models the parts of it in which many
writers, crash points or rewritings have to fit together, and proves what they promise.

* `Rows`, `Tasks`, `Commands`, `Files`, `Executors` define the center's tables and, as functions
  on them, what each transaction does. `Center` and `Workers` are the same transactions as the
  program runs them, row by row on mutable tables with the same loops and early returns; every
  method is proved to leave the database its function describes.
* `Reports`, `Recovery`, `Serving`, `Effects`, `Working` and `TaskTable` read these functions off the
  rows: what a report, a claim, an upload, a parse, an embedding, a repair, a retry, a deletion, an
  acknowledgement and a whole pipeline find and leave, told without the functions that compute it, and
  what follows over runs: expired leases are claimed again, reported versions stay alive, each task
  does the work its key names, an uploaded text is served and found, a dispatched repair comes back.
* `Runs` is the transition system over a clock: poll claims, Celery deliveries (late and duplicate
  ones included), pipeline nodes, finishes, crashes, operator retries, reports, uploads, deletions,
  scans, searches, edge claims and acknowledgements, in every interleaving. One commit is one step,
  and a worker's claim and its finish are separate steps.
* `Protocol` and `ProtocolTheorems` prove what every step keeps and what follows for whole runs:
  agreement of a repair task with its command, leases, conservation of dispatches, verified success.
  Which steps keep the agreement, and which keep the leases, is stated exactly for every kind of
  step: only an operator's retry or a worker's finish can break them. Two working rules suffice:
  operators retry only failed tasks, and a worker that commits does so within its lease. Runs that
  keep them are called disciplined. Two lemmas show runs that break one rule and lose a success.
* `EdgeAgent` and `EdgePaths` are the edge side of a repair, `RepairBytes` composes both sides: a repair
  succeeds exactly when the agent has read, at the record's path, bytes with the recorded hash.
* `Versions`, `Lineage`, `Coverage`, `Keys`, `Drain`, `PipelineReplay` treat file versions, the text
  a version is served with, the replica scan, idempotency keys, termination of the worker's work, and
  the replay of a pipeline after a partial run. `OneLiveStepIff` is exact for its invariant at every
  step; that a whole run keeps it is sufficient for at most one record of a path being alive, not
  necessary, since a run may break the invariant while only one record happens to be alive.
* `TextSplit`, `Resplit` and `LineEndings` are the chunker, the gateway's reassembly, what both promise
  together, and what the chunker makes of foreign line endings.
* `Alerting` and `AlertCenter` are alert delivery: retries, backoff, dead letters, suppression, as
  whole fires and whole cycles. `AlertRuns` splits both: a fire reads, and commits later; a cycle
  reads its rows, sends them one by one, and commits the columns it has changed over whatever the
  table holds by then, or dies before. `AlertSuppression` and `AlertRetries` state for every step
  exactly when it keeps what suppression and retrying rest on, and what runs then guarantee;
  `AlertRepeats` shows that the other steps do repeat sends; `AlertSerial` leads back to the whole;
  `AlertFires` says what a whole fire and a whole cycle leave of each row.
* `Outbox` and `OutboxSession` are the hooks that publish task ids after a commit. That an unread
  write over a pending row publishes it again belongs to the hooks' contract with any caller: every
  write of `pending` in `knowledge-hub/app/services.py` (lines 305, 481, 505 and 528) follows a read
  of the task in the same transaction, so none of those callers meets it.
* `OfflineQueue` is the edge agent's upload queue on disk, with crashes between file operations.
* `Search` and `SearchRuns` are ranking with hit-count feedback, `Similarity` is what the ranking means:
  angles and distances, and the worth of hits.
* `Splitting` and `Token` are unpadded base64url (section 5 of RFC 4648) and signed tokens
  (Appendix C of RFC 7515); `Alphabet` and `Decoding` tell both directions of the encoding as numbers,
  for texts that are not well formed too.

A row's index is its primary key minus one, and row order is creation order. SHA-256, the
embedding service, JSON, HMAC, the square root and the logarithm are given functions; network
calls, Syncthing, notifiers, timers and file system errors are inputs. Sessions do not flush before
queries, as configured in `knowledge-hub/app/db.py:9`: a task requeued by a claim can be claimed
only by the next one, and a replica marked missing still counts as healthy in the same scan.

Where the code and its documentation differ, the model follows the code:

* `knowledge-hub/docs/input-output.md:49` says that only failed repairs are retried. The endpoints
  accept every transition of the table in `knowledge-hub/app/services.py:16-23`, so waiting and
  running repairs too, and every kind of task; `RetryKeepsAgreementIff` says when that is harmless.
* The comment at `knowledge-edge-agent/web.go:385-386` says that only a network error stops a flush.
  The code stops at any refusal, which `FlushStopsAtTheRefused` states.
* `knowledge-hub/app/alerting.py:140-147` describes suppression per alert. It fails after a cycle
  that dies between a send and its commit, and after a fire that commits over a newer send;
  `KnowledgeStepIff` says exactly when it is kept.

`dafny verify dfyconfig.toml` checks the whole project.

## Model

| member | source | states |
|---|---|---|
| TextSplit.SplitTextInto | knowledge-hub/app/services.py:431-457 | the nested loops raise exactly for a non-positive size and otherwise compute the chunk list that all chunker properties below are about, for every text |
| TextSplit.GatewayKeepsEveryCharacter | knowledge-hub/app/main.py:406-413 | for every text and size the gateway body has exactly the text's non-whitespace characters, in order |
| TextSplit.ChunksAreWellPacked | knowledge-hub/app/services.py:440-456 | every chunk has 1 to `max_chars` characters and any two neighbours together with a blank line exceed `max_chars` |
| TextSplit.ChunksFitInText | knowledge-hub/app/services.py:431-457 | the chunks together are never longer than the text |
| TextSplit.ChunkCountBound | knowledge-hub/app/services.py:440-456 | k chunks need a text of at least floor(k/2) * (max_chars - 1) characters |
| TextSplit.ParagraphsAreParagraphs | knowledge-hub/app/services.py:434-437 | every paragraph is trimmed, not empty, and free of blank lines and carriage returns |
| TextSplit.ParagraphsOfJoin | knowledge-hub/app/services.py:434-437 | reading a list of paragraphs joined by blank lines gives back that list |
| TextSplit.BodyIsTheParagraphs | knowledge-hub/app/services.py:441-454 | each cut adds one blank line to the body, and the body is the joined paragraphs, whatever the size, if and only if no paragraph exceeds `max_chars` |
| TextSplit.ResplittingTheBody | knowledge-hub/app/services.py:431-457 | if no paragraph exceeds `max_chars`, splitting the body again at any size gives the chunks of the original text at that size |
| Resplit.BodyIsThePieces | knowledge-hub/app/services.py:441-446 | packing paragraphs is packing the pieces they are cut into: same chunks, and the body is the pieces joined |
| Resplit.ResplitIsTrimmed | knowledge-hub/app/services.py:431-457 | splitting any gateway body again cuts nothing, so the chunks it gives start and end with ink |
| Resplit.ResplittingGivesTheSameIff | knowledge-hub/app/services.py:431-457 | splitting the body again gives the very same chunks if and only if no cut of an oversized paragraph fell next to whitespace |
| Resplit.ResplittingAfterACutDiffers | knowledge-hub/app/services.py:445-446 | the input on which re-splitting does not give the same chunks: a cut before a space |
| LineEndings.SpacesAre | knowledge-hub/app/services.py:434 | trimming removes exactly the 29 white space characters of Unicode, listed one by one |
| LineEndings.SameOnceUnified | knowledge-hub/app/services.py:434-437 | texts that agree once every "\r\n" and every "\r" is one line ending have the same paragraphs and, at every size, the same chunks |
| LineEndings.EndingsDoNotMatter | knowledge-hub/app/services.py:434-437 | a text without returns has the same paragraphs and chunks whether its lines end with "\n", "\r\n" or "\r" |
| LineEndings.ParagraphsOfJoined | knowledge-hub/app/services.py:434-437 | paragraphs joined by "\r\n\r\n" or by "\r\r" are read back as that list |
| Centers.Center.LookUpTask | knowledge-hub/app/services.py:493 | the row with the key, if there is one |
| Centers.Center.LookUpCommand | knowledge-hub/app/services.py:888 | the row with the key, if there is one |
| Centers.Center.LookUpFile | knowledge-hub/app/services.py:279 | the record with path and hash, if there is one |
| Centers.Center.CreateClientTask | knowledge-hub/app/services.py:491-499 | an idempotent create: a known key changes nothing |
| Centers.Center.CreateRemoteCommand | knowledge-hub/app/services.py:887-905 | an idempotent create that refuses unknown nodes |
| Centers.Center.ClaimNextTask | knowledge-hub/app/services.py:517-552 | the loop over stale rows and the claim leave the tables `ClaimNext` specifies: stale rows requeued but not claimable yet, the first free pending row claimed |
| Centers.Center.ClaimTaskById | knowledge-hub/app/services.py:555-585 | a Celery claim leaves the tables `ClaimById` specifies: nothing inside a foreign lease or for a settled task |
| Centers.Center.TransitionTask | knowledge-hub/app/services.py:502-514 | exactly the allowed transitions happen, and leaving running clears the claim |
| Centers.Center.ClaimNextRemoteCommand | knowledge-hub/app/services.py:964-1013 | expired claims of the node are requeued and claimable at once; without a claimable row nothing changes |
| Centers.Center.AcknowledgeRemoteCommand | knowledge-hub/app/services.py:908-961 | the acknowledgement settles command, repair task and replica together as `Acknowledge` specifies, and an error changes nothing |
| Centers.Center.Report | knowledge-hub/app/services.py:277-331 | a report leaves the records, tasks and replicas `ReportFile` specifies, for known and new hashes |
| Centers.Center.StatusOnReport | knowledge-hub/app/services.py:288-297 | the status a known record gets from its tasks' outcomes |
| Centers.Center.ReportAgain | knowledge-hub/app/services.py:280-312 | the whole state after a report of a known hash |
| Centers.Center.NewestVersionOf | knowledge-hub/app/services.py:313-314 | the highest version of a path |
| Centers.Center.SupersedeLive | knowledge-hub/app/services.py:315-318 | exactly the live records of the path become superseded |
| Centers.Center.ReportNew | knowledge-hub/app/services.py:313-331 | the whole state after a report of a new hash |
| Centers.Center.QueueFileContentParse | knowledge-hub/app/services.py:460-488 | four refusals that change nothing, else one parse task per version and status `parsing` unless parsed |
| Centers.Center.Delete | knowledge-hub/app/main.py:379-390 | chunks and replicas of the file go, the record stays as a tombstone |
| Centers.Center.DesiredNodes | knowledge-hub/app/services.py:355-361 | the policy nodes that are replica nodes, in order |
| Centers.Center.ScanReplicasOf | knowledge-hub/app/services.py:382-388 | exactly the outdated replicas of the file are marked |
| Centers.Center.RepairOf | knowledge-hub/app/services.py:395-398 | a repair task for file and node unless one was ever created |
| Centers.Center.ScanRecord | knowledge-hub/app/services.py:363-381 | what the scan makes of one record by its age and status |
| Centers.Center.ReconcileFileLiveness | knowledge-hub/app/services.py:346-400 | a whole scan: the loops leave what `Reconcile` specifies, or nothing when the unique index on keys refuses the commit |
| Workers.CheckAndSplit | knowledge-hub/app/services.py:607-618 | the checks before any row is touched, and the chunks |
| Workers.ReplaceChunks | knowledge-hub/app/services.py:619-628 | the file's rows become exactly the numbered, hashed, tagged chunks |
| Workers.EmbedChunks | knowledge-hub/app/langgraph_flow.py:101-121 | exactly the rows of the version are embedded; none leaves everything alone |
| Workers.ExecuteParseTask | knowledge-hub/app/services.py:603-632 | the state and outcome of a parse task, with one embed task per version |
| Workers.ExecuteRepairTask | knowledge-hub/app/services.py:660-697 | a repair dispatches one command per task and requeues it only when it has failed |
| Workers.ExecuteTaskPayload | knowledge-hub/app/services.py:588-713 | every executor leaves the state and outcome `Execute` specifies |
| Workers.FinishClaimed | knowledge-hub/app/services.py:720-744 | execution and final status as one commit, for poll and Celery (only poll sets `parse_failed`) |
| Workers.RunClaimed | knowledge-hub/app/services.py:716-771 | what follows a claim, for poll and Celery: a pipeline's nodes one by one, then the finish |
| Workers.RegisterStage | knowledge-hub/app/langgraph_flow.py:51-63 | state and outcome of the register node |
| Workers.ParseStage | knowledge-hub/app/langgraph_flow.py:66-98 | state and outcome of the parse node, skipped without content |
| Workers.ReplicaStage | knowledge-hub/app/langgraph_flow.py:124-148 | state and outcome of the replica node, refused as a whole for a repeated policy node |
| Workers.RunSequential | knowledge-hub/app/langgraph_flow.py:172-176 | the nodes in order until one raises |
| Workers.RunTaskOnce | knowledge-hub/app/services.py:716-746 | a whole poll turn leaves the state the drain theorem is about |
| Workers.RunTaskById | knowledge-hub/app/services.py:749-771 | a whole Celery delivery leaves the state `Drain.RunTaskById` specifies: nothing, or a claim, the pipeline's nodes and a finish |
| Workers.GatewayDownload | knowledge-hub/app/main.py:401-413 | the body of a current version with rows, else nothing |
| Recovery.PollRequeuesExpired | knowledge-hub/app/services.py:517-552 | every poll turns every row that runs without a claim time, or with one older than the lease, into an unclaimed pending one and audits that once; of the other rows it changes only the one it claims |
| Recovery.PollClaimsFirstFree | knowledge-hub/app/services.py:535-552 | a poll claims the first pending row that is not locked, for its worker, from now on, and counts and audits the attempt |
| Recovery.PollFindsNothing | knowledge-hub/app/services.py:541-543 | without such a row a poll claims nothing |
| Recovery.DeliveryClaimsIff | knowledge-hub/app/services.py:555-585 | a delivered task is claimed if and only if it is pending or its lease has expired; every other delivery changes nothing |
| Recovery.ClaimedAgainWithin | knowledge-hub/app/services.py:517-552 | a pending or expired task is claimed within as many polls as rows that may come before it, and one or two |
| Recovery.ExpiredIsRecovered | knowledge-hub/app/services.py:517-552 | from every state an expired task is claimed again, with one attempt more, within a number of polls bounded by the rows before it |
| Recovery.EndedNeverCommits | knowledge-hub/app/services.py:716-771 | a worker that has crashed or finished commits nothing more for that claim, in any run |
| Recovery.EdgeClaimTakesFirst | knowledge-hub/app/services.py:964-1013 | a node gets the first command that is queued for it or whose claim has expired, and its other expired commands are queued again |
| Recovery.EdgeClaimFindsNothing | knowledge-hub/app/services.py:990-998 | without such a command nothing changes |
| Recovery.EdgeClaimAudits | knowledge-hub/app/services.py:964-1013 | the claim and each expiry are audited exactly once |
| Reports.KnownReportRefreshes | knowledge-hub/app/services.py:277-312 | from every reachable state a report of a known version makes its record live, seen now, at that node, with a healthy replica there, gives it the status its parse and register tasks say, and queues the register task again after a failure |
| Reports.NewReportRegisters | knowledge-hub/app/services.py:313-331 | a report of new content adds a live record with a pending register task and a healthy replica and supersedes exactly the live records of the path |
| Reports.ReportedStaysAlive | knowledge-hub/app/services.py:346-381 | a reported version stays alive for `missing_after` whatever else happens, unless it is deleted or other content is reported for its path |
| Reports.ScanMarksReplicas | knowledge-hub/app/services.py:382-388 | a scan marks exactly the replica rows of current versions that have not been seen for too long, and touches only records, replica rows and new tasks |
| Reports.UnreportedGoesMissing | knowledge-hub/app/services.py:363-381 | what a scan makes of a record by the time since it was seen |
| TaskTables.TasksAreWhatTheirKeysSay | knowledge-hub/app/services.py:277-744 | in every run no two tasks have one key, and each task of the center does exactly the work its key names, on a recorded version; a parse task carries a text with the version's hash |
| Effects.NodesAreAsLastHeard | knowledge-hub/app/services.py:218-232 | in every run the center knows exactly the nodes it has heard of, as replicas or not as they last said |
| Effects.TransitionsByTarget | knowledge-hub/app/services.py:16-23 | the transition table read by its targets |
| Effects.RetryRequeuesIff | knowledge-hub/app/main.py:286-294 | a retry makes a running, waiting or failed task pending and unclaimed, one endpoint only a repair, and changes nothing otherwise |
| Effects.CreateIsIdempotent | knowledge-hub/app/services.py:491-499 | a client task is created pending unless its key is known |
| Effects.CommandIsIdempotent | knowledge-hub/app/services.py:887-905 | a client command is queued unless its key is known or its node is not |
| Effects.DeleteLeavesATombstone | knowledge-hub/app/main.py:379-390 | deleting drops exactly the chunks and replicas of the file, and neither gateway nor search serves it afterwards |
| Effects.ForeignFinishIff | knowledge-hub/app/services.py:591-713 | work done elsewhere ends as the outside says, work without effect always well, and only the task row changes |
| Effects.RegisterFinishIff | knowledge-hub/app/services.py:590-602 | a register task marks the recorded version registered, or fails |
| Effects.RepairFinishIff | knowledge-hub/app/services.py:660-697 | a repair of a recorded version for a replica node waits for its one command: queued with version and path if there is none, queued again if it has failed, else left alone; any other repair fails and leaves the commands alone |
| Effects.AckSettlesIff | knowledge-hub/app/services.py:908-961 | which acknowledgements are accepted, and what each makes of command, repair task and replicas |
| Effects.RepairRoundTrip | knowledge-hub/app/services.py:660-1013 | a repair that is delivered, dispatched, handed to its node and answered by an agent that finds the bytes at the record's path ends with task and command successful and a healthy replica |
| Effects.RefusedIff | knowledge-hub/app/services.py:460-514 | which creations, transitions, retries, uploads and deletions are refused, and that a refused one changes nothing |
| Effects.TransitionLeaves | knowledge-hub/app/services.py:502-514 | an allowed transition sets one row's status, counts an attempt when it starts, and drops the claim when it does not |
| Effects.AckRefusedIff | knowledge-hub/app/services.py:908-917 | which acknowledgements are refused, and that these change nothing |
| Effects.PipelineDelivers | knowledge-hub/app/langgraph_flow.py:51-176 | with distinct policy nodes a pipeline over a text of the recorded version ends parsed, with the text's rows each embedded by itself and a repair task for every policy node |
| Serving.ParsableIff | knowledge-hub/app/services.py:607-618 | a text is parsed if and only if it has the hash of the recorded version, is not blank, and the chunk size is positive |
| Serving.UploadQueuesIff | knowledge-hub/app/services.py:460-488 | an upload is accepted exactly for the record's node and a text with its hash, and then queues its parse task, or queues it again after a failure |
| Serving.ParseFinishStores | knowledge-hub/app/services.py:603-632 | a parse task with such a text replaces the rows of its file by those of the text and leaves the version with an embed task |
| Serving.ParseFinishFails | knowledge-hub/app/services.py:603-744 | with any other text it fails: no chunk row is touched, and only a poll marks the record |
| Serving.EmbedFinishIff | knowledge-hub/app/services.py:633-650 | an embed task embeds each row of the version by the row's own text, or fails and changes no row |
| Serving.UploadedTextIsServed | knowledge-hub/app/services.py:460-632 | after upload, parse and embed a live version is parsed, with the rows of exactly that text, each embedded by itself |
| Serving.GatewayServesIff | knowledge-hub/app/main.py:401-413 | a download has a body if and only if the version is live, not superseded, and has rows of its own |
| Serving.ServedIsFound | knowledge-hub/app/main.py:401-413 | such a version is downloaded whole, and each of its chunks is ranked by its own embedding |
| Protocol.StepKeepsSound | knowledge-hub/app/services.py:517-1013 | every step of every interleaving keeps: commands linked to their repair tasks with the task's target, dispatches balanced by final acknowledgements, attempts counted by claims |
| Protocol.StepKeepsAgreed | knowledge-hub/app/services.py:517-1013 | every step that obeys the two working rules keeps the agreement of repair tasks with commands, and keeps that an execution inside its lease owns its row alone |
| Protocol.RepairStepIff | knowledge-hub/app/services.py:517-1013 | a step of any kind keeps the agreement of repair tasks with commands if and only if it retries no waiting repair and finishes no repair that has succeeded or that waits and cannot be dispatched |
| Protocol.AgreedStepIff | knowledge-hub/app/services.py:517-1013 | it keeps the leases as well if and only if no other execution could still commit the task that it retries or finishes |
| ProtocolTheorems.RepairAgreement | knowledge-hub/app/services.py:660-697 | in every run whose retries and finishes, late ones included, meet that condition a repair task is pending, running or failed only with no command or a failed one, waits exactly while its command is outstanding, and is successful exactly when its command is; disciplined runs are among them |
| ProtocolTheorems.OverlapNeverCommitsTwice | knowledge-hub/app/services.py:517-585 | of two overlapping executions of a task, from crashes, expiry or duplicate deliveries, never both commit |
| ProtocolTheorems.FinishIsByTheClaimant | knowledge-hub/app/services.py:716-771 | a result is committed only by the worker whose claim is on the row |
| ProtocolTheorems.SuccessIsNeverLeft | knowledge-hub/app/services.py:16-23 | a successful task stays successful for the rest of a disciplined run |
| ProtocolTheorems.AttemptsAreClaims | knowledge-hub/app/services.py:544-549 | in every run `attempts` is the number of audited claims |
| ProtocolTheorems.DispatchesAreAnswered | knowledge-hub/app/services.py:672-695 | in every run a command's dispatches are its final acknowledgements, plus one while it is outstanding |
| ProtocolTheorems.SuccessIsVerified | knowledge-hub/app/services.py:918-946 | in every run a repair becomes successful only by an acknowledgement of its own outstanding command, verified with the hash of command and record, that records a healthy replica on that node |
| ProtocolTheorems.RetryKeepsAgreementIff | knowledge-hub/app/main.py:286-294 | a retry at either endpoint, of any kind of task, keeps the agreement if and only if the task is no waiting repair and no execution can still commit it |
| ProtocolTheorems.RetryOfExpiredKeepsAgreement | knowledge-hub/app/services.py:502-514 | what the row alone tells: a retry of a failed task, or of a running one whose lease has expired, keeps the agreement |
| ProtocolTheorems.FinishKeepsAgreementIff | knowledge-hub/app/services.py:716-771 | a finish, in time or late, keeps repairs and commands in agreement if and only if its task is not a successful repair, nor a waiting one whose version or node does not fit any more; it keeps the leases if and only if no other execution could still commit the task |
| ProtocolTheorems.RetryOfWaitingLosesTheSuccess | knowledge-hub/app/services.py:16-23 | a run in which a retried waiting repair ends waiting for a command that has succeeded |
| ProtocolTheorems.LateFinishLosesTheSuccess | knowledge-hub/app/services.py:716-744 | a run in which a finish after the lease overwrites a success |
| EdgeAgents.WaitForVerifiedReplica | knowledge-edge-agent/main.go:352-389 | the polling loop computes the specified acknowledgement for every sequence of looks and wake-ups, the last seen hash included |
| EdgeAgents.ExecuteReplicaSync | knowledge-edge-agent/main.go:248-279 | the checks in order, each with its own failure, before and after asking for a scan |
| EdgeAgents.WaitSucceedsIff | knowledge-edge-agent/main.go:352-389 | the wait succeeds if and only if the first look that ends it finds bytes with the wanted hash before cancellation or deadline |
| EdgeAgents.WaitFailsIff | knowledge-edge-agent/main.go:352-389 | each other end of the wait, exactly: an unreadable target, a cancellation, or the deadline, which reports the bytes seen last |
| EdgeAgents.EndsAs | knowledge-edge-agent/main.go:248-389 | for each of the nine ways an execution ends, exactly when it ends so |
| EdgeAgents.LastHashIsLastSeen | knowledge-edge-agent/main.go:353-381 | the hash reported at the deadline is that of the bytes seen last |
| EdgeAgents.HexDigits | knowledge-edge-agent/main.go:281-287 | hashes are written in hexadecimal digits of either case |
| EdgeAgents.SuccessMeansEqualBytes | knowledge-edge-agent/main.go:248-279 | the agent reports success, verified with the wanted hash, if and only if it accepts the request and has read bytes with that hash at the place the path leads to |
| EdgePaths.AcceptedPathsStayBeneath | knowledge-edge-agent/main.go:257-261 | the path guard accepts a relative path if and only if it leads strictly beneath every directory it is followed from, and then the cleaned path names the same place |
| RepairBytes.CommandsNameTheRecord | knowledge-hub/app/services.py:672-684 | in every run each sync command carries the path of a recorded version, and its repair task the hash and node |
| RepairBytes.AgentAckSettlesByBytes | knowledge-edge-agent/main.go:214-224 | in every run the agent's acknowledgement makes the repair successful if and only if the agent succeeded and the record kept its hash, and the agent has then read, at the record's path, bytes with the record's hash; otherwise the repair fails |
| Versions.VersionsAreOneToN | knowledge-hub/app/services.py:313-320 | in every run the versions of a path are exactly 1 to n, each once, in order of arrival, with distinct hashes |
| Versions.OneLiveStepIff | knowledge-hub/app/services.py:277-381 | a step keeps "a live record is the newest, any other is superseded or out of date" if and only if it reports no older hash, deletes no record in date and writes no status on a superseded one in date |
| Versions.OneLiveVersion | knowledge-hub/app/services.py:277-331 | while steps keep that, at most one record of a path is alive and it has the highest version |
| Versions.RunKeepsNoLiveSuperseded | knowledge-hub/app/services.py:315-318 | in every run no superseded record is alive |
| Versions.OlderHashRevives | knowledge-hub/app/services.py:280-283 | a run in which reporting an older hash leaves two live versions |
| Versions.LateRegisterRevives | knowledge-hub/app/services.py:601 | a run in which a late register task and a scan leave two live versions |
| Versions.DeletedRevives | knowledge-hub/app/services.py:375-376 | a run in which a scan revives a deleted record beside a newer one |
| Lineage.ChunkLineage | knowledge-hub/app/services.py:603-632 | in every run a record's chunk rows are none, or exactly the numbered chunks of one text with the record's hash, all tagged with it |
| Lineage.GatewayServesTheRecordedText | knowledge-hub/app/main.py:401-413 | in every run the gateway's body is the reassembly of a text with the record's hash and has all its non-whitespace characters |
| Lineage.GatewayServesOnlyTheRecordedText | knowledge-hub/app/main.py:401-413 | with an injective hash, two bodies served for one record at any two times come from the same text |
| Coverage.PassFailsIff | knowledge-hub/app/services.py:390-400 | a scan fails as a whole if and only if the policy lists a valid replica node twice and a live file lacks replica and task there |
| Coverage.TwoPassesCover | knowledge-hub/app/services.py:346-400 | for distinct policy nodes, after two scans at one instant every live file has on every valid node a healthy replica or a repair task, and a third changes nothing |
| Coverage.OnePassCoversIff | knowledge-hub/app/services.py:382-398 | for distinct policy nodes one scan covers everything if and only if, before it, no live file has on a valid node a healthy but outdated replica and no repair task |
| Coverage.OnePassMayLeaveAGap | knowledge-hub/app/services.py:386-394 | a state in which one scan leaves a gap: the replica it marks missing still counts as healthy |
| Keys.KeysAreWritten | knowledge-hub/app/services.py:286-288 | the four stored keys, with the row id as a decimal numeral without leading zeros |
| Keys.StoredKeysAreInjective | knowledge-hub/app/services.py:395 | rendered idempotency keys are equal only for equal keys, although hashes and node names may contain the separator |
| Drain.PollLightens | knowledge-hub/app/services.py:716-746 | a poll that finds a task strictly lowers the total weight of pending and running tasks, although executing creates tasks; an empty one leaves nothing that was pending |
| Drain.DrainingEnds | knowledge-hub/app/services.py:716-746 | the number of polls in a row that find work is at most the initial weight |
| Working.PollTurnIsARun | knowledge-hub/app/services.py:716-746 | a poll turn on anything but a pipeline is a claim and a finish of the transition system, and it finds work if and only if a pending row is free |
| Working.DeliveryTurnIsARun | knowledge-hub/app/services.py:749-771 | so is a delivery, which runs if and only if the task is pending or its lease has expired |
| Working.RegisterNodeIff | knowledge-hub/app/langgraph_flow.py:51-63 | the register node marks the recorded version unless its text is being parsed, is parsed or did not parse |
| Working.ParseNodeIff | knowledge-hub/app/langgraph_flow.py:66-98 | the parse node stores exactly the text of the recorded version, and nothing without one or for a blank one |
| Working.EmbedNodeIff | knowledge-hub/app/langgraph_flow.py:101-121 | the embed node embeds each row of the version by the row's own text |
| Working.ReplicaNodeIff | knowledge-hub/app/langgraph_flow.py:124-148 | the replica node appends a pending repair task for exactly the policy nodes that have none, if the version is recorded |
| Working.PipelineEndsWellIff | knowledge-hub/app/langgraph_flow.py:51-176 | with distinct policy nodes a pipeline ends well if and only if the version is recorded and its text, if it has one, is of that version and not blank |
| Working.PolledPipelineSettles | knowledge-hub/app/services.py:716-746 | a poll turn on a pipeline ends successful exactly then, with the attempt counted and the claim dropped; the text is then stored and embedded and every policy node has a repair task |
| Working.DeliveredPipelineSettles | knowledge-hub/app/services.py:749-771 | a delivery that claims a pipeline ends by the same condition, with the same rows |
| PipelineReplay.ReplayIsHarmless | knowledge-hub/app/langgraph_flow.py:151-156 | any prefix of the pipeline, even one that raises, followed by all of it leaves the database and the outcome of one full run, whatever the embedding service answered the first time |
| PipelineReplay.OrchestrationModesAgree | knowledge-hub/app/langgraph_flow.py:179-190 | graph mode, the fallback after a graph that failed anywhere, and sequential mode each leave one full run, with the embeddings of the run that came last |
| AlertRuns.StepStaysWired | knowledge-hub/app/alerting.py:140-236 | every step of every interleaving keeps: while a cycle is open only resets by fires touch the rows it has read, and its session holds what sending, parking or giving up makes of them |
| AlertSuppression.KnowledgeStepIff | knowledge-hub/app/alerting.py:154-235 | a step leaves every row knowing its last success, and sent or past the window, if and only if it is no commit of a fire that resets a row whose success the window still covers, and no loss of a cycle after a success |
| AlertSuppression.LosesNoSuccessIff | knowledge-hub/app/alerting.py:224-235 | for every window but zero, losing a cycle keeps that if and only if none of its sends succeeded |
| AlertSuppression.UnchangedRowsMayBeReset | knowledge-hub/app/alerting.py:154-178 | a fire that commits over the rows it has read, unchanged, resets none within the window |
| AlertSuppression.SuccessesAreSpaced | knowledge-hub/app/alerting.py:162-178 | in every run whose steps keep that, fires overlapping cycles as they like, two successful sends of one alert on one channel are at least the window apart |
| AlertRepeats.LostSuccessMayRepeat | knowledge-hub/app/alerting.py:224-235 | for every success a lost cycle had, of a row not touched since and an alert not resolved, the next cycle may send again inside the window |
| AlertRepeats.LateResetMayRepeat | knowledge-hub/app/alerting.py:162-178 | for every row a fire resets inside the window, the next cycle may send again inside it |
| AlertRepeats.LostCycleRepeatsTheSend | knowledge-hub/app/alerting.py:224-235 | for every window and backoff, a run in which a cycle dies before its commit and the next one repeats its send at once |
| AlertRepeats.LateResetRepeatsTheSend | knowledge-hub/app/alerting.py:162-178 | for every window and backoff, a run in which a fire commits late and a send is repeated at once |
| AlertRetries.FitStepIff | knowledge-hub/app/alerting.py:154-235 | a step keeps status, attempts and the tries since the last reset together if and only if it tries no row that a fire has reset under the cycle, resets none that the open cycle has tried or whose attempts the reset leaves standing, and loses no cycle after a try |
| AlertRetries.ResetUnderTheCycle | knowledge-hub/app/alerting.py:189-194 | a failed row reset under the cycle whose next send fails is committed pending, with the attempts from before the reset and one more |
| AlertRetries.RetriesAreLimited | knowledge-hub/app/alerting.py:182-236 | in every run that loses no cycle after a try, whatever fires overlap, a channel gets between two resets at most as many sends as the limit, each later than the backoff after the one before |
| AlertRetries.LostTryMayRepeat | knowledge-hub/app/alerting.py:224-235 | for every try a lost cycle had, of a row not touched since and an alert not resolved, the next cycle may try again inside the backoff |
| AlertRetries.AttemptsFitStatus | knowledge-hub/app/alerting.py:189-200 | in every run whose steps keep them together, pending rows have 0 attempts, failed ones 1 to max - 1, dead letters exactly max, and between cycles attempts are the sends since the last reset |
| Alerting.ResolvedStaysQuiet | knowledge-hub/app/alerting.py:183-188 | a cycle sends nothing for an alert that is resolved or missing when it starts |
| AlertFires.FireLeaves | knowledge-hub/app/services.py:162-181 | with distinct channels a fire opens its alert and makes exactly its failed, dead, suppressed and long sent rows pending without attempts; channels without a row get one, and no other row changes |
| AlertFires.FiredMayBeSent | knowledge-hub/app/alerting.py:154-222 | every such row may be sent at once by the next cycle |
| AlertFires.CycleDealsIff | knowledge-hub/app/alerting.py:204-236 | a cycle deals with a row if and only if it is ready and fewer than `limit` ready rows come before it, and then parks it, gives it up, or tries it once |
| AlertFires.StatusIsSet | knowledge-hub/app/services.py:184-205 | resolving and acknowledging change one alert, and a resolved one stays resolved |
| AlertFires.ResolvedUntilFired | knowledge-hub/app/services.py:162-205 | in every run only a fire reopens a resolved alert |
| AlertSerial.FireIsItsParts | knowledge-hub/app/services.py:162-181 | a fire that commits at the moment it reads is the whole fire that `FireAlert` performs |
| AlertSerial.CycleIsItsParts | knowledge-hub/app/alerting.py:204-236 | a cycle that nothing interrupts is the whole cycle that `ProcessDeliveries` performs, and breaks no rule |
| AlertSerial.SerialRunsKeepEverything | knowledge-hub/app/alerting.py:140-236 | in every run of whole fires and whole cycles, for every setting of the limits: window, backoff and retry limit hold, and attempts fit statuses and are the sends since the last reset |
| AlertCenters.AlertCenter.EnsureRow | knowledge-hub/app/alerting.py:154-178 | one channel: a new row, or the reset of an existing row outside the window |
| AlertCenters.AlertCenter.EnsureRows | knowledge-hub/app/alerting.py:153-179 | the loop over channels leaves what the specification says |
| AlertCenters.AlertCenter.FireAlert | knowledge-hub/app/services.py:162-181 | the fired alert and its rows, or nothing at all when the unique index refuses |
| AlertCenters.AlertCenter.AttemptDelivery | knowledge-hub/app/alerting.py:182-201 | one try of any row: parked, sent, failed or dead, with the log it leaves |
| AlertCenters.AlertCenter.ProcessDeliveries | knowledge-hub/app/alerting.py:204-236 | a whole cycle leaves the specified rows and reports how many picked rows ended in each status and how many were tried |
| Outbox.MovedIsCollectedIff | knowledge-hub/app/dispatcher.py:84-97 | the rows a flush inserts or moves to pending, told from the table before and after, are covered by the hook's objects, and are exactly theirs if and only if no pending status was written, unread, over a row that is pending already |
| Outbox.PublishedIsOwedIff | knowledge-hub/app/dispatcher.py:84-122 | in every run each commit publishes at least the rows its flushes inserted or moved to pending and nothing of another transaction, and exactly those if and only if every such overwritten row its flushes met is one of them anyway |
| Outbox.ReadingFirstIsExact | knowledge-hub/app/dispatcher.py:84-122 | when no expired status is overwritten unread, every commit publishes exactly what it owes |
| Outbox.BlindWritePublishesAgain | knowledge-hub/app/dispatcher.py:95-97 | after any commit, writing pending unread to any task that is pending publishes it once more |
| OutboxSessions.HooksOnlyNote | knowledge-hub/app/dispatcher.py:84-122 | with the hooks or without them, a flush and a commit leave the same tables and objects |
| OutboxSessions.TaskSession.CollectNewTasks | knowledge-hub/app/dispatcher.py:84-97 | the loop before a flush picks up new tasks and tasks moved to pending |
| OutboxSessions.TaskSession.MaterializeTaskIds | knowledge-hub/app/dispatcher.py:100-108 | the loop after a flush notes the ids of all picked up objects |
| OutboxSessions.TaskSession.PublishAfterCommit | knowledge-hub/app/dispatcher.py:111-116 | every noted id goes to the broker exactly once, none without Celery, and the notes are dropped |
| OutboxSessions.TaskSession.DiscardUncommittedTasks | knowledge-hub/app/dispatcher.py:119-122 | the notes are dropped and nothing is sent |
| OutboxSessions.TaskSession.CommitSession | knowledge-hub/app/dispatcher.py:84-122 | flush, commit and hooks together leave the specified session, with Celery or without; with it they send exactly the published set, each id once, and without it nothing |
| OfflineQueue.NothingIsLost | knowledge-edge-agent/web.go:327-348 | at every point of every run, with concurrent writers and flushers and crashes anywhere, an enqueue that returned is still queued whole or was accepted by both center calls |
| OfflineQueue.EntriesHaveTheirData | knowledge-edge-agent/web.go:340-345 | at every point a JSON file has its data file, unless its entry was accepted and its own removal failed |
| OfflineQueue.OnlyWholeEntriesAreUploaded | knowledge-edge-agent/web.go:403-418 | what the center accepts is what an enqueue that returned was given |
| OfflineQueue.LeftWithoutDataIff | knowledge-edge-agent/web.go:425-426 | the two removals leave a JSON file without data if and only if the first fails and the second does not |
| OfflineQueue.FlushStopsAtTheRefused | knowledge-edge-agent/web.go:398-430 | a flush of a listed directory fails if and only if an entry it reaches is refused; it has then uploaded exactly the readable entries before it, in name order, and touched no other file |
| OfflineQueue.FlushIsARun | knowledge-edge-agent/web.go:387-431 | an undisturbed flush is a run of the concurrent system's steps |
| OfflineQueue.EnqueueIsARun | knowledge-edge-agent/web.go:327-348 | so is an enqueue, complete or cut short by an error |
| OfflineQueue.QueueDir.OfflineEnqueue | knowledge-edge-agent/web.go:327-348 | what an enqueue leaves on disk for every point of failure |
| OfflineQueue.QueueDir.FlushOfflineQueue | knowledge-edge-agent/web.go:387-431 | the loop leaves the specified disk, uploads and error, returns the number of uploads, and asks for ingestion of exactly the uploads that want it; a missing directory is no error, an unreadable one is |
| Search.CosineIsAtMostOne | knowledge-hub/app/services.py:96-99 | similarity is at most 1 for vectors of any two lengths, by Cauchy-Schwarz |
| Similarity.MultiplesScoreOne | knowledge-hub/app/services.py:96-99 | a positive multiple of the query scores exactly 1, a negative one exactly -1 |
| Similarity.ScaleDoesNotMatter | knowledge-hub/app/services.py:96-99 | only the direction of a vector matters |
| Similarity.NearerIsMoreSimilarIff | knowledge-hub/app/services.py:96-99 | of two vectors of the query's length and of one norm, the more similar is the one at the smaller distance from the query |
| Similarity.WorthOfHits | knowledge-hub/app/services.py:109-113 | what hits add: nothing without boosting, and with it the same to every similarity until 1 is reached, which the weight decides exactly |
| Search.HitsNeverLower | knowledge-hub/app/services.py:109-113 | with a non-negative weight one more hit never lowers a score |
| Search.TopWins | knowledge-hub/app/services.py:151-157 | the result has as many rows as asked for, and each beats each row outside it |
| Similarity.ResultIsRanked | knowledge-hub/app/services.py:151-157 | the result is ordered by falling score, then file and chunk index, and no row left out would come before one returned |
| Search.RepeatedSearchIsStable | knowledge-hub/app/services.py:132-158 | repeating a query any number of times returns the same set of chunks, although hit counts and scores change |
| Search.StableIff | knowledge-hub/app/services.py:106-113 | repetition is stable for every query and index if and only if boosting is off or its weight is not negative |
| Search.NegativeWeightIsUnstable | knowledge-hub/app/services.py:109-113 | the index on which a negative weight changes the result |
| SearchRuns.HitsAreBumps | knowledge-hub/app/services.py:31-43 | counting hits on the tables is counting them on the ranked rows |
| SearchRuns.SearchCountsOnce | knowledge-hub/app/services.py:31-43 | a search adds one hit to each chunk row it returned and changes nothing else |
| SearchRuns.HitsAreReturns | knowledge-hub/app/services.py:31-43 | after any searches a row's hits have grown by the number of results it was in |
| SearchRuns.SearchIsStableUnderFeedback | knowledge-hub/app/services.py:132-158 | the same, from every reachable state of the center |
| SearchRuns.SearchSeesTheRecordedText | knowledge-hub/app/services.py:133-140 | in every run each ranked row is a chunk of a text with the hash of a live record, let through by the filter |
| Serving.RankedIff | knowledge-hub/app/services.py:133-140 | a search ranks exactly the embedded rows of live records' own versions that the filter lets through |
| Serving.RankedByOwnText | knowledge-hub/app/services.py:132-150 | in every run each ranked row is scored by the embedding of its own text, a chunk of a text with a live record's hash |
| SearchRuns.SearchKnowledge | knowledge-hub/app/services.py:102-158 | a search of a blank query raises; any other returns the ranked top of the rows its filter lets through, none farther from the query than a comparable row left out, and counts one hit on exactly the returned rows |
| Splitting.SplitThree | knowledge-hub/app/security.py:70-74 | three parts without dots, joined by dots, are found again |
| Splitting.SplitIsJoined | knowledge-hub/app/security.py:72 | splitting loses nothing and leaves no separator in a piece |
| Tokens.PaddingIsRestored | knowledge-hub/app/security.py:44-50 | stripping removes exactly the padding, and the length modulo 4 tells how much it was |
| Tokens.DecodeUndoesEncode | knowledge-hub/app/security.py:44-50 | decoding undoes encoding for every byte string |
| Decoding.DigitsAre | knowledge-hub/app/security.py:48-50 | the decoder reads the URL-safe digits, each at its place, and two of the other alphabet |
| Decoding.DecodingIff | knowledge-hub/app/security.py:48-50 | every text, well formed or not, decodes if and only if padding completes its last group or it ends between groups, and to the bytes that its digits up to there make as one number; other characters are skipped |
| Decoding.UrlDecodesIff | knowledge-hub/app/security.py:48-50 | an unpadded text of digits decodes if and only if its last group has not just one digit |
| Decoding.NumbersAreInjective | knowledge-hub/app/security.py:48-50 | that number and their count determine the bytes |
| Alphabet.DigitsInOrder | knowledge-hub/app/security.py:44-45 | the 64 digits are the URL-safe alphabet, in its order |
| Alphabet.EncodingIsBase64 | knowledge-hub/app/security.py:44-45 | every three bytes are written as the number they make, in four digits, and a last one or two, with zero bits filled in, in two or three |
| Tokens.TokenHasThreeParts | knowledge-hub/app/security.py:59-67 | a created token splits into exactly its three parts |
| Tokens.VerifiesWhileItLives | knowledge-hub/app/security.py:70-89 | a created token verifies to its claims exactly while the clock has not passed iat + ttl, and to nothing afterwards |
| Tokens.AcceptedIff | knowledge-hub/app/security.py:70-89 | a text is accepted for given claims if and only if it has three parts, of which the third decodes to the MAC of the first two, the second to the claims, and these have not expired; it raises exactly when the signed part is not ASCII |
| Tokens.OnlyKnownRoles | knowledge-hub/app/security.py:64 | exactly the known roles get into a token, as often as they were asked for |
| Tokens.SignatureBindsPayload | knowledge-hub/app/security.py:75-82 | an accepted token with a created token's signature has a first part with the same MAC |

## Left out

- AlertSuppression.SuccessesAreSpaced: at most one cycle is open at a time; the code does not stop a second one (the endpoint beside the worker), which finds the table as if the first had been lost.
- AlertRuns.StepStaysWired: all reads of one fire happen at one moment, and so do a send and the look at its alert; a transaction that fires several alerts is several fires.
- Outbox.PublishedIsOwedIff: one session is modelled; rows that other sessions change between its transactions are not, and neither is the broker's own answer.
- OfflineQueue.NothingIsLost: ids are fresh (time and four random bytes in the code), a torn JSON file does not parse, and a write that returned has reached the disk.
- Search.RepeatedSearchIsStable: scores are real numbers; floating-point rounding and the six-digit rounding of the displayed score are not modelled.
- ProtocolTheorems.OverlapNeverCommitsTwice: transactions are atomic steps; races inside one transaction, such as two polls that both requeue a stale row, are not modelled beyond the rows a claim finds locked.
- PipelineReplay.ReplayIsHarmless: within one run the embedding service gives one answer per text; from run to run it may change.
- RepairBytes.AgentAckSettlesByBytes: the acknowledgement reaches the center; a lost or late one is a step that does not happen, or happens later, in `Runs`.
- EdgePaths.AcceptedPathsStayBeneath: lexical cleaning is Unix path cleaning; symbolic links are an input of the check that follows it.
- Error texts, result summaries, sizes, categories, metadata and audit rows that do not concern tasks and commands are not modelled; alerts raised by other transactions enter `AlertRuns` as events.
- SearchRuns.SearchKnowledge: the category filter and the decoding of stored vectors are a given filter on rows; the PostgreSQL branch limits before boosting, so the ranking results are about the other branch only.
- Workers.ExecuteTaskPayload: Dify ingestion, backups and other external kinds of work are nondeterministic outcomes; a pipeline's nodes are run by `Workers.RunClaimed`.
- The edge agent's command types other than a replica sync, its heartbeat and its MQTT client would only add easy members.
- Policy health rates and gap summaries mix live and dead rows or overlapping windows, so no natural bound holds.
- API keys, request guards, consoles, blob storage, DSH proposals, self-update, deployment scripts and configuration are thin wrappers or foreign calls.
- JSON payloads are typed values, so a payload of the wrong shape is not modelled; client keys avoid the center's own prefixes.
