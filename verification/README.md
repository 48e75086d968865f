# A land-record pipeline, modelled and proved

The repository digitises land records: pages are scanned and deskewed, fields are extracted, an engine decides what
to do with each extraction, officers review some of them, and records are published in versions, with every step
written to an audit log. This project models its core in Dafny and proves what that core keeps, over every input,
every run and every crash point.

- **Audit chain and anchored root** (`HashChain`, `MerkleRoot`, `AnchorVerify`). The hash chain of each shard, the
  tree over the shard heads, the structural walk, the comparison with a root held elsewhere, and the window that says
  when the first changed entry had been written. A log that verifies and has the anchored root has the anchored
  history, or two of the texts that were hashed collide.
- **Queue, worker, decision** (`MessageQueue`, `WorkerRunner`, `DrainProofs`, `DeadLetterProofs`, `CommitProofs`,
  `DecisionEngine`, `DecisionRows`, `DecisionDelivery`, `DecisionDrain` and their proofs).
  At-least-once delivery with effectively-once effects: nothing is lost, order is kept, a backlog drains within a
  bound, each extraction is decided once, and a redelivery names the rows of the first delivery.
- **Outbox and configuration** (`OutboxRelay`, `ConfigVersions`, `ConfigCache` and their proofs). Relays that publish
  each committed row, and a cache that is never silently stale.
- **Review desk** (`EditDistance`, `ReviewDesk` and its proofs). The two-row edit distance is the least cost of an edit
  script, and it decides which corrections need two people; no run gets around that.
- **Geometry** (`Strikethrough`, `LabelBinding`, `Shoelace`, `DeskewBox`), over real numbers.
- **Calibration and publication** (`Calibration`, `Publication` and its proofs).

What the source updates in place is a class here, and each of its methods is proved against a function of the state; the
theorems are about those functions. A database transaction is one step. The process may die between any two
effects that do not share a transaction.

Where the code does not do what its own documentation says, or not for every input, the code is modelled, the
failing input is a lemma, and the exact condition is stated as well:

- A field that holds the separator makes the hashed text ambiguous, and only that does
  (`HashChain.SeparatorInFieldIsAmbiguous`). The anchor binds texts in any case, and records where one of the two logs
  is free of the separator (`AnchorVerify.AnchorBindsRecords`).
- The tree repeats the last node of an odd level (`MerkleRoot.OddListRepeatsLastLeaf`). It binds lists of equal length, and any
  two lengths share roots (`MerkleRoot.AnyTwoLengthsShareARoot`).
- The report of a tamper window says that the tampering happened no later than the disagreeing roll. It happened after it
  (`AnchorVerify.DisagreementProvesLaterRewrite`); what lies between the two rolls is the first entry that changed.
- An append breaks its own shard exactly when its row does not sort last (`HashChain.AppendVerifiesIffLast`).
- A delivery counts although the handler did not run: behind a message that fails, and on a crash or a stop. A message is
  dead-lettered only after `max_deliveries` failures of its own exactly under the conditions of
  `DeadLetterProofs.FailsFirstIff`.
- A death between commit and ack repeats the commit, exactly where a message has a second delivery
  (`CommitProofs.CommitsOnceIff`).
- A second `page.processed` entry would be written exactly when a page's district led to another shard than before
  (`PageLifecycleProofs.RepeatedIffDistrictMoved`). Nothing in the repository changes the district of a batch once it is
  stored, so this guards against writers that do not exist yet.
- A forward-dated configuration version takes effect without an event, and a read overtaken by an invalidation stores
  an old value (`ConfigCacheProofs.ForwardDatedGoesStale`, `ConfigCacheProofs.OvertakenReadGoesStale`); exactly when is
  `ConfigCacheProofs.TickKeepsCoherentIff` and `ConfigCacheProofs.SplitReadIsCoherentIff`.
- The answer for a stroke can depend on its direction (`Strikethrough.GrazingDependsOnDirection`), only for strokes
  that graze the box (`Strikethrough.DirectionMattersOnlyWhenGrazing`), and exactly for those of
  `Strikethrough.DirectionMattersIff`.
- A conflict that the register opens under an extraction's own id breaks the replay of a conflict decision
  (`DecisionProofs.ForeignConflictBreaksReplay`) and nothing else: no row
  (`DecisionProofs.AnyRunDecidesOnce`) and no other reply (`DecisionProofs.ReplayNamesFirstRows`).
- An acknowledged index also lets later gaps pass, and an empty group id publishes once; what the gate lets through is
  `PublicationProofs.PublishSucceedsIff`, and which gaps are new is `PublicationProofs.NewGapPassesIff`.

Parameters stand for what the code gets from outside: the digest and the time format (`HashChain.Crypto`; a digest is
assumed to be 64 characters without the separator, and nothing else), new ids, clocks, the cosine and sine
of a recorded angle, containment and distance of labels and parcels, how a handler ends, and where a process dies.

## Model

| member | source | states |
|---|---|---|
| `HashChain.ChainOrderIsTheQuery` | libs/audit/src/landaudit/chain.py:162-168 | The rows a walk sees are exactly the rows of its shard, in the strict order of time and then id. |
| `HashChain.VerifyShard` | libs/audit/src/landaudit/chain.py:162-184 | Succeeds if and only if every row links to its predecessor and hashes correctly; a failure names the first row that does not. |
| `HashChain.ChainedMeans` | libs/audit/src/landaudit/chain.py:169-184 | A chain verifies if and only if each entry names the hash of the one before it, the first one none, and carries the hash of its own fields over that name. |
| `HashChain.HashIs` | libs/audit/src/landaudit/chain.py:67-70 | What is hashed, field by field: previous hash, actor, action, subject, purpose, value hash and time, in this order, missing ones empty. |
| `HashChain.ShardIsLastDigit` | libs/audit/src/landaudit/chain.py:34-49 | The shard of a key is the last hex digit of its digest modulo eight; the system key has shard 0. |
| `HashChain.ShardKeys` | libs/audit/src/landaudit/chain.py:52-64 | A district goes before a batch, an empty one counts as missing, and only without both is the key the system key. |
| `HashChain.FirstFieldBound` | libs/audit/src/landaudit/chain.py:67-70 | Two texts joined by the separator split the same way when the first parts hold none. |
| `HashChain.JoinBindsFields` | libs/audit/src/landaudit/chain.py:67-70 | Fields without the separator are the only list of their length with their joined text, whatever the other list holds. |
| `HashChain.JoinAmbiguousIff` | libs/audit/src/landaudit/chain.py:67-70 | A list of two or more fields shares its joined text with another list of its length if and only if one of its fields holds the separator. |
| `HashChain.SeparatorInFieldIsAmbiguous` | libs/audit/src/landaudit/chain.py:67-70 | Another entry of the same time, different in its texts, has the same hashed text if and only if one of the texts holds the separator. |
| `HashChain.MaterialBindsPredecessor` | libs/audit/src/landaudit/chain.py:67-70 | The hashed text fixes the previous hash, "no previous" included, whatever the fields hold. |
| `HashChain.StepBack` | libs/audit/src/landaudit/chain.py:169-184 | Equal hashes in two verifying chains have equal hashed texts and equal predecessors, unless two of the hashed texts collide. |
| `HashChain.EqualHeadsBindHistories` | libs/audit/src/landaudit/chain.py:162-184 | Two verifying chains with the same head have the same length and the same hashed texts throughout, back to the first entry, unless texts hashed in the two walks collide. |
| `HashChain.HashesDistinct` | libs/audit/src/landaudit/chain.py:125-152 | No hash occurs twice in a verifying chain unless two of its hashed texts collide. |
| `HashChain.AuditLog.Append` | libs/audit/src/landaudit/chain.py:73-152 | Adds one row, linked to the latest row of the resolved shard, and changes no other. |
| `HashChain.AppendedIs` | libs/audit/src/landaudit/chain.py:114-152 | The row that is written: the caller's fields, in the shard asked for, else of the key, else of subject or actor; it names the hash of the latest row of that shard, none only in an empty one. |
| `HashChain.AppendExtends` | libs/audit/src/landaudit/chain.py:125-152 | A row later than the head of its shard extends that shard at the end; every shard that verified still verifies. |
| `HashChain.AppendVerifiesIffLast` | libs/audit/src/landaudit/chain.py:125-152 | After an append the shard verifies if and only if the new row sorts after the row it names as predecessor: with an equal timestamp the ids decide, and an earlier clock breaks the chain. |
| `HashChain.MisplacedRowBreaksChain` | libs/audit/src/landaudit/chain.py:169-184 | A row that names the head but is read at an earlier place makes the walk fail. |
| `MerkleRoot.HashPairs` | libs/audit/src/landaudit/merkle.py:57 | One level: the digests of neighbouring pairs, the left one first, in order. |
| `MerkleRoot.ComputeMerkleRoot` | libs/audit/src/landaudit/merkle.py:46-58 | The loop computes the root for every list: the digest of nothing for an empty one, else the top node of the tree, to which the audit path of every leaf leads. |
| `MerkleRoot.RootIsTopNode` | libs/audit/src/landaudit/merkle.py:46-58 | The root built level by level is the top node of the tree defined from above: a node is the digest of its left child and its right one, or of the left one twice. |
| `MerkleRoot.AuditPath` | libs/audit/src/landaudit/merkle.py:46-58 | Folding any leaf with its siblings, each on the side its position says, gives the root; there are as many as levels. |
| `MerkleRoot.RootBindsLeaves` | libs/audit/src/landaudit/merkle.py:46-58 | Equal roots over leaf lists of equal length come from equal lists, unless texts hashed in the two trees collide. |
| `MerkleRoot.OddListRepeatsLastLeaf` | libs/audit/src/landaudit/merkle.py:55-56 | The repeated node shows: every odd list longer than one has the root of the list that repeats its last leaf. |
| `MerkleRoot.AnyTwoLengthsShareARoot` | libs/audit/src/landaudit/merkle.py:46-58 | For any two lengths of one or more there are lists of digests of these lengths with one root, so the root fixes the leaves exactly when their number is fixed, as it is for the shards. |
| `MerkleRoot.ReadShardHeads` | libs/audit/src/landaudit/merkle.py:61-77 | One head per shard, in shard order, empty shards included. |
| `MerkleRoot.SortedHeadsStay` | libs/audit/src/landaudit/merkle.py:80-86 | Heads in shard order are left in that order, so the root is over all shards as read. |
| `MerkleRoot.SortHeadsSorts` | libs/audit/src/landaudit/merkle.py:84 | Sorting heads puts them in shard order and loses none. |
| `MerkleRoot.RootOfShards` | libs/audit/src/landaudit/merkle.py:61-86 | The root of a log, written out over the leaf of each of the eight shards, "number:head". |
| `MerkleRoot.LeafTextBindsHead` | libs/audit/src/landaudit/merkle.py:38-39 | The leaf text of a shard fixes its head, "empty" included. |
| `AnchorVerify.RootBindsLeafTexts` | libs/audit/src/landaudit/merkle.py:80-86 | Two logs with the same root have the same leaf texts, unless texts hashed for them collide. |
| `AnchorVerify.AnchorBindsHistories` | libs/audit/src/landaudit/verify.py:133-164 | Two logs that both pass the structural check and have the same root have the same hashed history in every shard, entry by entry; otherwise two different texts, each hashed while verifying one of the logs, share a digest. |
| `AnchorVerify.MaterialsBindFields` | libs/audit/src/landaudit/chain.py:67-70 | Equal histories are equal field by field, with a missing field and an empty one alike, where the entry of one of the two logs holds no separator; nothing is asked of the other log. |
| `AnchorVerify.AnchorBindsRecords` | libs/audit/src/landaudit/verify.py:133-164 | A log whose entries hold no separator is bound record by record: any log that verifies and has its root has the same records in every shard, or two hashed texts collide. |
| `AnchorVerify.BoundTamperWindow` | libs/audit/src/landaudit/verify.py:96-130 | No window if and only if no roll records a head that is gone; a window names the earliest roll whose head is gone and the nearest earlier one whose head is present. |
| `AnchorVerify.WindowUnique` | libs/audit/src/landaudit/verify.py:96-130 | That description fits one window only. |
| `AnchorVerify.LastAgreeingIsNearest` | libs/audit/src/landaudit/verify.py:106-129 | The agreeing roll a window names is the nearest one before it, and is missing only when there is none. |
| `AnchorVerify.RollAgreesIffPrefix` | libs/audit/src/landaudit/verify.py:107-114 | The head lookup stands for the whole history: the recorded head is found if and only if what the shard held at the roll is a prefix of what it holds now, unless texts collide. |
| `AnchorVerify.StructuralFindings` | libs/audit/src/landaudit/verify.py:82-93 | One finding per shard, also after a failure: that the shard verifies, or the first entry that does not. |
| `AnchorVerify.SortedFirstIsEarliest` | libs/audit/src/landaudit/verify.py:153-155 | The first window after the stable sort precedes every other: earlier time, or the same time and a lower shard. |
| `AnchorVerify.VerifyAgainstAnchor` | libs/audit/src/landaudit/verify.py:133-164 | What each field of the report means, the findings included, over the root that `MerkleRoot.RootOfShards` writes out; the window reported is the earliest over all shards, and is missing only when no roll disagrees. |
| `AnchorVerify.HonestRunsVerify` | libs/audit/src/landaudit/rollup.py:19-58 | Along every run of appends and rolls with a clock that advances in each shard, every shard verifies, no roll ever disagrees, and old entries stay as a prefix. |
| `AnchorVerify.HonestRunsRecord` | libs/audit/src/landaudit/rollup.py:34-41 | Along such a run the rolls record the heads of logs that verified and only grew. |
| `AnchorVerify.RunsNeverDisagree` | libs/audit/src/landaudit/verify.py:96-105 | Along every run of appends and rolls, whatever the clock and whether or not the shards verify, no roll ever disagrees. |
| `AnchorVerify.DisagreementProvesLaterRewrite` | libs/audit/src/landaudit/verify.py:115-129 | A roll that disagrees proves a rewrite, and one that happened after that roll: until then the recorded head was still there. The text of the report says "no later than" that roll. |
| `AnchorVerify.EmptyingComesLater` | libs/audit/src/landaudit/verify.py:115-129 | Such a rewrite exists for every log and every shard with entries: take a roll, then empty the table. |
| `AnchorVerify.WindowBoundsFirstChange` | libs/audit/src/landaudit/verify.py:96-130 | What a window over such rolls says of a log that verifies now: what its shard held at the agreeing roll is intact, and the first entry that changed was appended after that roll and before the disagreeing one, unless texts collide. |
| `MessageQueue.InMemoryQueue.Publish` | libs/queue/src/landqueue/testing.py:66-72 | The next id, at the end of its stream; nothing else changes. |
| `MessageQueue.InMemoryQueue.EnsureGroup` | libs/queue/src/landqueue/testing.py:74-81 | A new group starts at the beginning or behind the backlog; an existing one is left alone. |
| `MessageQueue.InMemoryQueue.Consume` | libs/queue/src/landqueue/testing.py:83-140 | Hands out the oldest unacked messages if there are any, else unread ones, each with its raised count, and moves the cursor over what was read for the first time. |
| `MessageQueue.InMemoryQueue.Redeliver` | libs/queue/src/landqueue/testing.py:101-112 | The first pending messages again, counted, stored in place; the rest of the table keeps its order. |
| `MessageQueue.InMemoryQueue.ReadOn` | libs/queue/src/landqueue/testing.py:117-128 | Unread entries as messages, each counted. |
| `MessageQueue.InMemoryQueue.Ack` | libs/queue/src/landqueue/testing.py:142-144 | Removes the message from the pending table; an unknown id changes nothing. |
| `MessageQueue.InMemoryQueue.PendingCount` | libs/queue/src/landqueue/testing.py:154-159 | The number of unacked messages of the group. |
| `MessageQueueProofs.GroupStarts` | libs/queue/src/landqueue/testing.py:74-81 | Where a new group starts, with nothing pending; every existing group and stream stays. |
| `MessageQueueProofs.RunsConserve` | libs/queue/src/landqueue/testing.py:66-144 | After every run of publishing, group creation, consuming and acking by anyone: what a group has read is exactly its pending messages, in stream order with the published data, and its acked ones, each once; counts never rise along the pending list. |
| `MessageQueueProofs.ReadIsPendingOrAcked` | libs/queue/src/landqueue/testing.py:99-144 | Every entry below the cursor, past what was skipped, is either pending or acked, and never both. |
| `MessageQueueProofs.PendingWasRead` | libs/queue/src/landqueue/testing.py:99-144 | A pending message was read by the group, is not acked, and is older than everything unread. |
| `MessageQueueProofs.DeliveredWasPublished` | libs/queue/src/landqueue/testing.py:99-128 | What a delivery hands out is an entry of the stream, data included. |
| `MessageQueueProofs.DeliversAsMany` | libs/queue/src/landqueue/testing.py:99-128 | A delivery hands out as many as were asked for or as there are: of the unacked messages from the oldest on, else of the unread entries. |
| `MessageQueueProofs.RedeliveryKeepsGroup` | libs/queue/src/landqueue/testing.py:101-112 | A redelivery changes no entry and raises exactly the counts of the first messages by one. |
| `MessageQueueProofs.GroupsAreIndependent` | libs/queue/src/landqueue/testing.py:74-144 | An operation on one group leaves every other group and every stream as it was. |
| `WorkerRunner.Runner.SendToDlq` | services/backend/src/backend/workers/runner.py:124-146 | Publish, audit, ack, in this order, with a crash possible after each of the first two. |
| `WorkerRunner.Runner.Handle` | services/backend/src/backend/workers/runner.py:95-120 | What one message leaves behind for every way its handler can end. |
| `WorkerRunner.Runner.RunOnce` | services/backend/src/backend/workers/runner.py:78-122 | One call over one batch; an error, a stop or a crash leaves the rest of the batch unhandled. |
| `WorkerRunner.Runner.Loop` | services/backend/src/backend/workers/runner.py:148-158 | The loop goes on whatever a call raised. |
| `WorkerRunnerProofs.EndingsAre` | services/backend/src/backend/workers/runner.py:94-146 | Everything one message leaves behind, for every way its handler and its dead-lettering can end: commits, logged failures, dead letters, notes and acks. |
| `WorkerRunnerProofs.ProcessOneIsSafe` | services/backend/src/backend/workers/runner.py:94-139 | The oldest message is settled and accounted for, or stays the oldest; with any failure or crash. |
| `WorkerRunnerProofs.CallIsSafe` | services/backend/src/backend/workers/runner.py:78-122 | A call keeps publication order and loses nothing. |
| `WorkerRunnerProofs.FinishedAreAcked` | services/backend/src/backend/workers/runner.py:78-122 | What a call counts as processed is exactly what it acknowledged. |
| `WorkerRunnerProofs.HistoriesAreSafe` | services/backend/src/backend/workers/runner.py:78-158 | Over every history of publications, calls, failures, stops and crashes: messages finish in publication order, none is lost, and each that left the queue was committed or is on the dead-letter queue with an audit note. |
| `WorkerRunnerProofs.EveryMessageHasAPlace` | services/backend/src/backend/workers/runner.py:78-158 | Every published message is finished and accounted for, pending, or unread, according to its position. |
| `WorkerRunnerProofs.NextIdIsFresh` | libs/queue/src/landqueue/testing.py:66-72 | The ids the broker gives out meet the freshness that histories assume. |
| `DrainProofs.CleanCallProgresses` | services/backend/src/backend/workers/runner.py:78-122 | From any site, a call without crash or stop that has work to do finishes a message or uses up a delivery of the oldest one, however the handler fails. |
| `DrainProofs.CallsDrain` | services/backend/src/backend/workers/runner.py:148-158 | From any site, crashed and partly delivered ones included: as many such calls as deliveries are left to the unfinished messages finish them all. |
| `DrainProofs.AnyHistoryDrains` | services/backend/src/backend/workers/runner.py:78-158 | Crashes happen, then stop: after any history, that many calls finish every message in publication order, each committed or on the dead-letter queue with a note. |
| `DrainProofs.BacklogDrains` | services/backend/src/backend/workers/runner.py:78-158 | After any history of publications and calls without crashes and stops, n times max_deliveries calls finish the n messages left, and each message published is then either committed once or dead-lettered once, the latter when its handler failed at the delivery that counts max_deliveries. |
| `DeadLetterProofs.DeadLettersFailed` | services/backend/src/backend/workers/runner.py:111-120 | Where every delivery is handled, a message is dead-lettered only after its handler has failed max_deliveries times, over every history of publications and calls. |
| `DeadLetterProofs.FailsFirstIff` | services/backend/src/backend/workers/runner.py:94-120 | Exactly when that holds of all such histories: no worker dies in a handler or is stopped within a batch, and batches hold one message, or max_deliveries is 1 and no worker dies while dead-lettering. |
| `DeadLetterProofs.FollowerFailsOnce` | services/backend/src/backend/workers/runner.py:114-120 | For every batch_count and max_deliveries of two or more: a message behind one that keeps failing is dead-lettered after one failure of its own. |
| `DeadLetterProofs.FollowerNeverRuns` | services/backend/src/backend/workers/runner.py:124-139 | With one delivery each, a worker that dies while dead-lettering takes the next message of the batch with it, unhandled. |
| `DeadLetterProofs.WastedIsDeadLettered` | services/backend/src/backend/workers/runner.py:99-103 | Crashes and stops use up deliveries: after max_deliveries of them a message is dead-lettered with no failure logged. |
| `CommitProofs.CommittedAtMostOnce` | services/backend/src/backend/workers/runner.py:94-120 | Over every history of publications, calls, failures, stops and crashes, no message is committed twice, provided no worker dies between commit and ack or max_deliveries is 1. |
| `CommitProofs.CrashRepeatsCommit` | services/backend/src/backend/workers/runner.py:107-109 | For every batch_count and every max_deliveries of two or more: a worker that dies between commit and ack leaves the message to be committed a second time. |
| `CommitProofs.CommitsOnceIff` | services/backend/src/backend/workers/runner.py:94-120 | Each message is committed at most once in every history if and only if no worker dies between commit and ack or a message has no second delivery. |
| `DecisionEngine.Session.RouteExtraction` | services/backend/src/backend/domain/decision.py:61-160 | One call of `route`, as one transaction: the reply and all tables after it; an error changes none. |
| `DecisionEngine.Session.Dispatch` | services/backend/src/backend/domain/decision.py:124-133 | The rows of each of the five outcomes. |
| `DecisionEngine.Session.FoldIntoAlert` | services/backend/src/backend/domain/decision.py:217-254 | Folds into the latest alert of the cluster within the window, without listing an extraction twice, or opens one. |
| `DecisionEngine.OpenAlert` | services/backend/src/backend/domain/decision.py:217-254 | The alert found is the latest of its cluster within the window, and none is found only when there is none. |
| `DecisionEngine.Session.MarkProcessedIfTerminal` | services/backend/src/backend/domain/page_lifecycle.py:74-93 | Appends the page entry unless the searched shard has one or the page is not done. |
| `DecisionRows.FirstDeliveryWrites` | services/backend/src/backend/domain/decision.py:124-188 | Everything a first delivery writes, row by row: the decision record, its audit entry in the shard of the extraction, the side rows of its outcome with new ids that the reply names, and the page's entry when every field of the page is routed and none is found; nothing else changes. |
| `DecisionRows.RefusalsChangeNothing` | services/backend/src/backend/domain/decision.py:71-88 | Why a delivery is refused; then no table changes. |
| `DecisionRows.TwoDecisionsAreRefused` | services/backend/src/backend/domain/decision.py:80-84 | Two decision records of one extraction would be refused, not answered. |
| `DecisionRows.AlertBranchRows` | services/backend/src/backend/domain/decision.py:217-254 | A novelty is listed in the latest alert of its cluster that is at most six hours old, if there is one, and opens one exactly when there is none; the reply says which. |
| `DecisionRows.RunsKeepAlertsApart` | services/backend/src/backend/domain/decision.py:217-254 | Over every run, whatever the clock: two alerts of one cluster were opened more than six hours apart. |
| `DecisionRows.PageCheckRows` | services/backend/src/backend/domain/page_lifecycle.py:59-93 | The page check appends one entry, in the page's shard, exactly when every field of the page has an outcome and no entry is found. |
| `DecisionProofs.BranchOwn` | services/backend/src/backend/domain/decision.py:173-254 | A first decision adds exactly the rows its outcome calls for, and the reply names them. |
| `DecisionProofs.DeliveryTouchesOnly` | services/backend/src/backend/domain/decision.py:61-160 | A delivery changes no row of any other extraction, shared alerts included. |
| `DecisionProofs.FirstDelivery` | services/backend/src/backend/domain/decision.py:124-160 | The first delivery decides once: one record, one audit entry of the same outcome, exactly its side rows, review tasks in the stream of the outcome. |
| `DecisionProofs.LaterDelivery` | services/backend/src/backend/domain/decision.py:86-122 | Every later delivery changes nothing, answers exactly when upstream still says the decided outcome, and then names the rows of the first; its single-row lookups never see two rows. |
| `DecisionProofs.ForeignConflictBreaksReplay` | services/backend/src/backend/domain/decision.py:111-113 | A further conflict row breaks the replay of a conflict decision if and only if it lists that extraction. |
| `DecisionProofs.StepKeepsView` | services/backend/src/backend/domain/decision.py:61-160 | One step of any writer keeps an extraction undecided or decided once, and never changes what was decided. |
| `DecisionProofs.RunsDecideOnce` | services/backend/src/backend/domain/decision.py:61-160 | Effectively once, over every run of deliveries, rollbacks, upstream changes and other writers that open no conflict under the extraction; the step towards the statement for all runs, `AnyRunDecidesOnce`. |
| `DecisionProofs.AnyRunDecidesOnce` | services/backend/src/backend/domain/decision.py:195-214 | The same whatever the conflict register opens: the own rows are those of the run without it, and the conflict rows are the own one and one for each that was opened under the extraction. |
| `DecisionProofs.StepKeepsOwn` | services/backend/src/backend/domain/decision.py:61-160 | Any step of anyone, conflicts under the extraction included, keeps it undecided or decided once by its own rows, which never change. |
| `DecisionProofs.ReplayNamesFirstRows` | services/backend/src/backend/domain/decision.py:86-122 | A redelivery after any run, with conflicts opened by anyone before or after the decision: it changes nothing, and it answers if and only if upstream still says the outcome that was decided and, for a conflict decision, the register never opened a conflict under the extraction. An answer is the reply of the first delivery, marked as replayed; two rows stop it exactly in that one case. |
| `DecisionDelivery.HandleMessage` | services/backend/src/backend/workers/decision_engine.py:24-89 | The queue handler: its errors, the mismatch note it commits on its own, and routing. |
| `DecisionDelivery.HandleIs` | services/backend/src/backend/workers/decision_engine.py:24-89 | The answers of the handler in the order of its checks; a mismatch leaves one row in the system shard. |
| `DecisionDelivery.DeliverOneIs` | services/backend/src/backend/workers/runner.py:94-146 | What one delivery leaves in the tables and at the queue, with every mishap. |
| `DecisionDelivery.DeliverOneIsEffective` | services/backend/src/backend/workers/decision_engine.py:24-89 | Handling the oldest message with any mishap keeps: a committed message is about an extraction decided once. |
| `DecisionDelivery.HistoriesAreEffective` | services/backend/src/backend/workers/runner.py:78-158 | The same over every history of the queue, the runner, the engine and other writers together. |
| `DecisionDelivery.AckedIsDecidedOrDeadLettered` | services/backend/src/backend/workers/runner.py:94-139 | After any such history, whatever conflicts others open, a decision message that left the queue has its extraction decided exactly once, with its own rows, or is on the dead-letter queue with an audit note. |
| `DecisionDrain.BatchIsARunnerBatch` | services/backend/src/backend/workers/decision_engine.py:24-89 | The decision worker is a runner whose handler ends as the engine answers, message by message. |
| `DecisionDrain.EveryMessageIsDecidedOrDeadLettered` | services/backend/src/backend/workers/runner.py:78-158 | After any such history, as many calls without crashes and stops as there are deliveries left, with other writers in between, leave the extraction of every published decision message decided exactly once, or the message on the dead-letter queue with an audit note. |
| `PageLifecycleProofs.GuardSearchesAppendShard` | services/backend/src/backend/domain/page_lifecycle.py:59-71 | The guard searches the shard the append writes to, except for an empty page id without a district whose shard differs from the engine's own. |
| `PageLifecycleProofs.MarkProcessedCounts` | services/backend/src/backend/domain/page_lifecycle.py:74-93 | An entry is added exactly when the page is done and has none; other pages are untouched. |
| `PageLifecycleProofs.DeliveryRecordsIff` | services/backend/src/backend/domain/page_lifecycle.py:74-93 | A delivery raises the count of a page if and only if it decides a field of the page, every field of the page then has an outcome, and the count was 0. |
| `PageLifecycleProofs.FirstEntryWaits` | services/backend/src/backend/domain/page_lifecycle.py:74-93 | Over every run of anyone's steps, no page has an entry before the delivery after which every field of it has an outcome. |
| `PageLifecycleProofs.RepeatedIffDistrictMoved` | services/backend/src/backend/domain/page_lifecycle.py:59-71 | A second entry for a page is written if and only if its district now leads to another shard than the first entry's. |
| `PageLifecycleProofs.StepKeepsPage` | services/backend/src/backend/domain/decision.py:150-158 | One step of any writer keeps a page at no more than one entry, in the shard the guard searches. |
| `PageLifecycleProofs.RunsRecordPages` | services/backend/src/backend/domain/page_lifecycle.py:74-93 | Over every run with fixed districts no page has two entries; if outcomes are never taken back, every page whose extractions are all decided has exactly one. |
| `OutboxRelay.Relay.DrainOnce` | libs/outbox/src/landoutbox/relay.py:26-61 | Publishes min(batch size, free rows) rows, marks exactly those, sends exactly their envelopes to their own queues in order, and lowers the undispatched count by that number. |
| `OutboxRelay.LockingOnlyLocks` | libs/outbox/src/landoutbox/relay.py:44-51 | Taking the batch changes nothing but the status of rows that were free. |
| `OutboxRelay.LockBatchCounts` | libs/outbox/src/landoutbox/relay.py:44-51 | The batch has min(limit, free rows) rows and takes none from another relay. |
| `OutboxRelay.OldestAreTaken` | libs/outbox/src/landoutbox/relay.py:44-51 | No row that a relay leaves free is older than one it takes. |
| `OutboxRelay.PublishWrites` | libs/outbox/src/landoutbox/relay.py:52-58 | The next publication is of the oldest row of the batch that is not sent yet, to its queue, with its envelope. |
| `OutboxRelay.CommitWrites` | libs/outbox/src/landoutbox/relay.py:52-61 | A relay commits when its whole batch is sent, and that marks exactly its rows, each attempt counted. |
| `OutboxRelay.CrashWrites` | libs/outbox/src/landoutbox/relay.py:40-44 | A relay that dies frees its own rows and no others; what it sent stays sent. |
| `OutboxRelay.WriterWrites` | libs/outbox/src/landoutbox/writer.py:16-26 | What is staged becomes rows when its transaction commits, in its order, and nothing when it aborts. |
| `OutboxRelay.MarkAllCounts` | libs/outbox/src/landoutbox/relay.py:52-61 | The commit dispatches exactly the rows of the batch. |
| `OutboxRelay.StepKeepsRow` | libs/outbox/src/landoutbox/relay.py:44-61 | No step changes a row's queue or envelope, and a dispatched row never changes again; only a crash loses a mark. |
| `OutboxRelay.RunsPublishRows` | libs/outbox/src/landoutbox/relay.py:44-61 | With any number of interleaved relays, writers and crashes: only committed rows are published, each with its own queue and envelope, a dispatched row at least once; a row is published as often as relays died after publishing it, plus once when it is marked or about to be. |
| `OutboxRelay.DrainsDispatchAll` | libs/outbox/src/landoutbox/relay.py:26-61 | Without new rows, as many drains as there are undispatched rows, each of at least one row, leave every row dispatched, whatever crashed before; published once for its mark and once for each relay that died holding it published. |
| `OutboxRelay.NoCrashExactlyOnce` | libs/outbox/src/landoutbox/relay.py:44-61 | Without crashes every row is published once if it is marked or about to be, and otherwise not at all. |
| `EditDistance.NextRow` | services/backend/src/backend/domain/correction.py:52-59 | The inner loop turns the row of one prefix into the row of the next. |
| `EditDistance.Compute` | services/backend/src/backend/domain/correction.py:42-60 | The two-row loop returns the distance of the two texts, `None` read as empty, shortcuts included. |
| `EditDistance.NoScriptIsCheaper` | services/backend/src/backend/domain/correction.py:42-60 | No script of insertions, deletions and substitutions that turns one text into the other costs less than the distance. |
| `EditDistance.BestScript` | services/backend/src/backend/domain/correction.py:42-60 | A script of exactly that cost exists. |
| `EditDistance.DistanceIsLeastCost` | services/backend/src/backend/domain/correction.py:42-60 | So the distance is the least cost of a script. |
| `EditDistance.DistanceZeroIffEqual` | services/backend/src/backend/domain/correction.py:43-44 | Zero if and only if the texts are equal. |
| `EditDistance.DistanceSymmetric` | services/backend/src/backend/domain/correction.py:42-60 | Symmetric. |
| `EditDistance.DistanceTriangle` | services/backend/src/backend/domain/correction.py:42-60 | The triangle inequality, by composing scripts. |
| `EditDistance.DistanceBounds` | services/backend/src/backend/domain/correction.py:42-60 | At least the difference of the lengths, at most the longer length. |
| `ReviewDesk.ReviewTables.Claim` | services/backend/src/backend/domain/review_workflow.py:37-59 | Assigns the oldest unassigned open task, or nothing. |
| `ReviewDesk.ReviewTables.SubmitTask` | services/backend/src/backend/domain/review_workflow.py:86-126 | The claimant alone may submit, once; the review task closes with the correction or its pending form. |
| `ReviewDesk.ReviewTables.WriteCorrection` | services/backend/src/backend/domain/correction.py:75-133 | A large change of a protected field is held for a second person; any other is written. |
| `ReviewDesk.ReviewTables.SkipTask` | services/backend/src/backend/domain/review_workflow.py:129-143 | The claimant hands the review task back. |
| `ReviewDesk.ReviewTables.ConfirmPending` | services/backend/src/backend/domain/correction.py:136-190 | Both actor checks, then the held correction is written under the confirming actor. |
| `ReviewDeskProofs.SubmitWrites` | services/backend/src/backend/domain/correction.py:75-133 | What the claimant's submission writes: one row with the extraction's canonical value, or its raw one when that is missing or empty, and the submitted text; held if and only if the field is protected and the two are more than four edits apart. |
| `ReviewDeskProofs.SubmitRefusals` | services/backend/src/backend/domain/review_workflow.py:86-109 | Why a submission is refused, in this order; then nothing changes. |
| `ReviewDeskProofs.ConfirmWrites` | services/backend/src/backend/domain/correction.py:136-189 | What a confirmation writes: the correction that the pending row describes, by the confirmer. |
| `ReviewDeskProofs.ClaimAndSkipWrite` | services/backend/src/backend/domain/review_workflow.py:37-143 | A claim assigns the oldest free task, a skip hands a held one back, and nothing else changes. |
| `ReviewDeskProofs.RunsAreSourced` | services/backend/src/backend/domain/correction.py:75-189 | Over every run: every correction and pending correction holds the extraction's reading and the text of a submission that was made, and is held exactly if the change is large. |
| `ReviewDeskProofs.LargeChangeWasConfirmed` | services/backend/src/backend/domain/correction.py:75-189 | After any calls of any actors, a correction that is large against what the extraction reads was submitted by one person and confirmed by another. |
| `ReviewDeskProofs.RunsKeepTwoPeople` | services/backend/src/backend/domain/review_workflow.py:86-143 | Over every run: a task is closed exactly when one correction or pending correction came from it, its claimant is the maker of that pending correction, and each confirmed one has exactly its own correction. |
| `ReviewDeskProofs.LargeChangeHasTwoPeople` | services/backend/src/backend/domain/correction.py:75-190 | Every correction of a protected field beyond the threshold was made by one person and confirmed by another. |
| `ReviewDeskProofs.RunsKeepOneTask` | services/backend/src/backend/domain/review_workflow.py:37-143 | Runs that open a task only for an extraction without one keep at most one task for each. |
| `ReviewDeskProofs.ConfirmSucceedsIff` | services/backend/src/backend/domain/correction.py:136-168 | On every desk: a confirmation succeeds if and only if it is the first and the actor is neither the maker nor the holder of the first task of the extraction. |
| `ReviewDeskProofs.OnlyTheMakerIsRefused` | services/backend/src/backend/domain/correction.py:136-168 | After every run with one task for each extraction the two actor checks agree: only the maker is refused. |
| `ConfigVersions.ConfigTables.WriteVersion` | services/backend/src/backend/domain/config_versions.py:146-212 | Refuses an approver who is the author; else appends the version, supersedes the head and puts the event in the outbox, together. |
| `ConfigVersions.EffectiveIsLatest` | services/backend/src/backend/domain/config_versions.py:59-81 | The effective row is the latest already effective one, and is missing only when there is none. |
| `ConfigVersions.ReadsAnswer` | services/backend/src/backend/domain/config_versions.py:59-106 | What an effective and a pinned read answer, field by field, and when they find nothing. |
| `ConfigVersions.WriteIs` | services/backend/src/backend/domain/config_versions.py:146-212 | A write is refused exactly when author and approver are one person or the time is taken for its key, and else adds one row and one event. |
| `ConfigVersions.WriteKeepsTimesDifferent` | services/backend/src/backend/domain/config_versions.py:146-212 | No two versions of a key take effect at the same time. |
| `ConfigVersions.WriteLinks` | services/backend/src/backend/domain/config_versions.py:146-212 | A write links the last earlier row of its key to the new one, and no other row. |
| `ConfigVersions.HeadIsLast` | services/backend/src/backend/domain/config_versions.py:146-212 | In a kept lineage the head of a key is its last row. |
| `ConfigVersions.WriteKeepsLineage` | services/backend/src/backend/domain/config_versions.py:146-212 | Each row is superseded by the next row of its key, and the last by none. |
| `ConfigVersions.HeadAnswersIff` | services/backend/src/backend/domain/config_versions.py:59-81 | The head of a key is what a read answers if and only if it is in force and every earlier row of its key that is in force took effect strictly before it. |
| `ConfigVersions.BackdatedHeadIsNotEffective` | services/backend/src/backend/domain/config_versions.py:59-81 | The head and the effective row differ: a back-dated write supersedes a row that stays in effect. |
| `ConfigCache.ConfigClient.Get` | libs/config_client/src/landconfigclient/client.py:75-78 | With a pin the pinned path, without one the effective path. |
| `ConfigCache.ConfigClient.GetPinnedRow` | libs/config_client/src/landconfigclient/client.py:80-87 | The cached pinned row or the database's, which is then cached; an error caches nothing. |
| `ConfigCache.ConfigClient.GetEffectiveRow` | libs/config_client/src/landconfigclient/client.py:89-112 | The cached row while it has not expired, else the database's, which also warms the pinned cache. |
| `ConfigCache.ConfigClient.HandleVersionChangeEvent` | libs/config_client/src/landconfigclient/client.py:114-138 | Drops the effective entry of that key alone; pinned rows stay. |
| `ConfigCache.ConfigClient.DrainOnce` | libs/config_client/src/landconfigclient/subscriber.py:18-50 | Each delivered event invalidates and is then acked, in order. |
| `ConfigCacheProofs.DrainInvalidates` | libs/config_client/src/landconfigclient/subscriber.py:18-50 | One drain drops the effective entries of exactly the keys its events name; pinned entries stay. |
| `ConfigCacheProofs.DrainAcknowledges` | libs/config_client/src/landconfigclient/subscriber.py:18-50 | And it acknowledges exactly the messages of its delivery. |
| `ConfigCacheProofs.ReadIs` | libs/config_client/src/landconfigclient/client.py:89-112 | An unpinned read is refused, or served from an entry younger than the time to live, or fetched and kept, also in the pinned cache unless it is there. |
| `ConfigCacheProofs.AnswersAreCurrentOrRecent` | libs/config_client/src/landconfigclient/client.py:89-112 | Whatever became of the events: after any run an unpinned read answers what the database answers now, or what it answered at a read of that key less than the time to live before. |
| `ConfigCacheProofs.RunsStayCoherent` | libs/config_client/src/landconfigclient/client.py:89-138 | Over every run of writes already in effect, relays, deliveries, lost acks, reads, restarts and time: a cached value that differs from what the database would answer has an event on its way, in the outbox, unread or pending. |
| `ConfigCacheProofs.QuietMeansFresh` | libs/config_client/src/landconfigclient/subscriber.py:18-50 | With nothing on its way, every cached value is the database's. |
| `ConfigCacheProofs.PinnedReadsAreDirect` | libs/config_client/src/landconfigclient/client.py:80-107 | After any run a pinned read through the cache, warmed by unpinned reads or not, equals the direct lookup, and that answer never changes. |
| `ConfigCacheProofs.AnswerStaysIff` | services/backend/src/backend/domain/config_versions.py:59-81 | An answer read earlier is still the answer if and only if no row that was written or came into force since is later than the one that answered. |
| `ConfigCacheProofs.TickKeepsCoherentIff` | libs/config_client/src/landconfigclient/client.py:89-112 | With nothing on its way, time alone makes a cached value stale if and only if a row of its key comes into force. |
| `ConfigCacheProofs.SplitReadIsCoherentIff` | libs/config_client/src/landconfigclient/client.py:97-107 | A read that fetches and stores around any other actions leaves a coherent entry if and only if an event is still on its way or no row overtook the one fetched. |
| `ConfigCacheProofs.ForwardDatedGoesStale` | services/backend/src/backend/domain/config_versions.py:184-212 | A forward-dated version becomes effective without an event: the cached value is stale with nothing on its way. |
| `ConfigCacheProofs.OvertakenReadGoesStale` | libs/config_client/src/landconfigclient/client.py:97-107 | A read that stores after an invalidation what it fetched before it leaves a stale value with nothing on its way. |
| `Strikethrough.LinesMeet` | services/extraction/src/extraction/domain/strikethrough.py:193-201 | Lines that are not parallel meet, at the fractions their orientation values give. |
| `Strikethrough.CrossingSegmentsMeet` | services/extraction/src/extraction/domain/strikethrough.py:193-201 | Segments reported as crossing share a point. |
| `Strikethrough.HitTouchesHull` | services/extraction/src/extraction/domain/strikethrough.py:160-190 | A reported segment shares a point with the closed rectangle, also when its corners are given in the wrong order. |
| `Strikethrough.HitSpans` | services/extraction/src/extraction/domain/strikethrough.py:160-172 | A reported segment spans what the rectangle asks for as given, so one the wrong way round has to be crossed in full. |
| `Strikethrough.LineSeparatesCorners` | services/extraction/src/extraction/domain/strikethrough.py:178-190 | A line through the open interior has corners of the rectangle on both sides. |
| `Strikethrough.EdgeReports` | services/extraction/src/extraction/domain/strikethrough.py:193-201 | A segment that passes through from outside to outside is reported at every edge whose ends its line separates. |
| `Strikethrough.EnteringIsHit` | services/extraction/src/extraction/domain/strikethrough.py:160-190 | Every segment that meets the open interior is reported, zero-length ones included. |
| `Strikethrough.HitIff` | services/extraction/src/extraction/domain/strikethrough.py:160-201 | Exactly which segments are reported: those that touch the closed rectangle and have an end in it or leave a corner of it strictly to their left. |
| `Strikethrough.DirectionMattersIff` | services/extraction/src/extraction/domain/strikethrough.py:160-201 | Exactly when the answer depends on which end comes first: the segment touches the rectangle, both ends are outside, and its line does not have corners strictly on both sides. |
| `Strikethrough.GrazingDependsOnDirection` | services/extraction/src/extraction/domain/strikethrough.py:193-201 | Through a corner only, the same segment is reported in one direction and not in the other. |
| `Strikethrough.DirectionMattersOnlyWhenGrazing` | services/extraction/src/extraction/domain/strikethrough.py:160-201 | A segment whose answer depends on its direction touches the closed rectangle and does not enter its interior. |
| `Strikethrough.Classify` | services/extraction/src/extraction/domain/strikethrough.py:70-157 | What the result says, in the terms of the box's x, y, w, h and the strokes' end points, for missing boxes, missing keys and malformed strokes too. |
| `Strikethrough.HitsAreFound` | services/extraction/src/extraction/domain/strikethrough.py:103-131 | A stroke is in the direct list exactly when it hits the box, and in the other exactly when it hits only the widened box. |
| `Strikethrough.DirectHitsInOrder` | services/extraction/src/extraction/domain/strikethrough.py:103-131 | The direct hits are listed in the order of the page's strokes, each once. |
| `Strikethrough.BufferHitsInOrder` | services/extraction/src/extraction/domain/strikethrough.py:103-131 | So are the strokes that hit only the widened box. |
| `Strikethrough.DirectHitIsBufferHit` | services/extraction/src/extraction/domain/strikethrough.py:103-131 | With a positive buffer every direct hit also hits the widened box, so asking for the direct hit first loses nothing. |
| `Strikethrough.VerdictIsGeometric` | services/extraction/src/extraction/domain/strikethrough.py:70-157 | For a box at (x, y) of width w and height h: a stroke with a point inside always cancels, a cancelled entry has a stroke that touches, and with w and h not negative exactly the strokes of the exact condition cancel; without a flag no stroke has a point inside the box widened by the buffer; the status that results. |
| `LabelBinding.CollectCandidates` | services/extraction/src/extraction/domain/vectorize.py:234-269 | The nested loops list every label at a parcel and every parcel at a label, contained or near enough. |
| `LabelBinding.BindLabels` | services/extraction/src/extraction/domain/vectorize.py:271-330 | One binding per parcel, resolved as stated for it alone. |
| `LabelBinding.NearestAt` | services/extraction/src/extraction/domain/vectorize.py:304 | The chosen candidate is the first of the nearest. |
| `LabelBinding.SeveralMeansAnother` | services/extraction/src/extraction/domain/vectorize.py:307-311 | More than one competing parcel means another parcel competes, under the rule that applies to the label. |
| `LabelBinding.BoundIff` | services/extraction/src/extraction/domain/vectorize.py:289-330 | A parcel is bound to a label if and only if the label is its first nearest preferred one, all preferred ones carry one text, and no other parcel competes for it. |
| `LabelBinding.UnboundIff` | services/extraction/src/extraction/domain/vectorize.py:289-330 | A parcel is left without a label, and not ambiguous, if and only if no label lies in it or near enough. |
| `LabelBinding.NoLabelTwice` | services/extraction/src/extraction/domain/vectorize.py:241-330 | For every containment and distance relation, no label is bound to two parcels. |
| `Shoelace.Area` | services/extraction/src/extraction/domain/vectorize.py:437-445 | The loop returns half the absolute signed sum, for short and open lists too. |
| `Shoelace.SplitAt` | services/extraction/src/extraction/domain/vectorize.py:440-444 | The signed sum splits at any vertex. |
| `Shoelace.SignedMoved` | services/extraction/src/extraction/domain/vectorize.py:440-444 | Moving an open path changes the sum by what separates its ends. |
| `Shoelace.AreaUnmovedByTranslation` | services/extraction/src/extraction/domain/vectorize.py:437-445 | On a closed ring the area does not change under translation. |
| `Shoelace.AreaIgnoresStart` | services/extraction/src/extraction/domain/vectorize.py:437-445 | Nor with the starting vertex. |
| `Shoelace.AreaIgnoresOrientation` | services/extraction/src/extraction/domain/vectorize.py:437-445 | Nor with the direction. |
| `Shoelace.DiagonalSplits` | services/extraction/src/extraction/domain/vectorize.py:440-444 | Any diagonal splits the signed sum into those of the two parts. |
| `Shoelace.FanIsSigned` | services/extraction/src/extraction/domain/vectorize.py:440-444 | The signed sum is that of the triangles from the first vertex, less the closing side. |
| `Shoelace.AreaIsFan` | services/extraction/src/extraction/domain/vectorize.py:437-445 | So the area of a closed ring is that of its triangle fan. |
| `Shoelace.AreaUnmovedIffClosed` | services/extraction/src/extraction/domain/vectorize.py:437-445 | Exactly the closed lists keep their area under every translation: the loop adds no closing side. |
| `Shoelace.OpenListDependsOnPosition` | services/extraction/src/extraction/domain/vectorize.py:437-445 | A concrete open list whose area doubles when it is moved. |
| `DeskewBox.MapBoxIs` | services/backend/src/backend/domain/provenance.py:144-155 | The returned box is the one of width |w cos|+|h sin| and height |w sin|+|h cos| about the image of the centre. |
| `DeskewBox.TurnsAboutCentres` | services/backend/src/backend/domain/preprocessing.py:53-68 | The centre of the processed page goes to the centre of the original one, and what lies off it turns by the recorded angle. |
| `DeskewBox.ContainsImages` | services/backend/src/backend/domain/provenance.py:144-155 | It contains the image of every point of the recorded box, whatever the sign of its sides. |
| `DeskewBox.SmallestBox` | services/backend/src/backend/domain/provenance.py:144-155 | Every upright box that contains all those images contains it. |
| `DeskewBox.InverseUndoes` | services/backend/src/backend/domain/preprocessing.py:53-68 | The opposite rotation between the swapped sizes is a two-sided inverse of the point map. |
| `DeskewBox.DistancesKept` | services/backend/src/backend/domain/preprocessing.py:60-68 | The point map keeps distances. |
| `DeskewBox.OriginalBoxIsTight` | services/backend/src/backend/domain/provenance.py:134-155 | An answer is given exactly when there is a box and a recorded rotation, and it is that box. |
| `DeskewBox.ThereAndBackContains` | services/backend/src/backend/domain/provenance.py:134-155 | Mapping the returned box forward again covers the recorded one. |
| `Calibration.FillBins` | services/modelwork/src/modelwork/domain/calibration/calibrator.py:414-425 | The first loop leaves in each bin the count, the correct ones and the confidences of exactly its samples. |
| `Calibration.ComputeEce` | services/modelwork/src/modelwork/domain/calibration/calibrator.py:399-434 | The errors in their order, 0 for no samples, else the sum of the bins' gaps over the number of samples. |
| `Calibration.EceIsMissed` | services/modelwork/src/modelwork/domain/calibration/calibrator.py:414-434 | The error, written out over the input: over the intervals, the distance between the labels and the confidences cut off at 0 and 1, over the number of samples. |
| `Calibration.BinOf` | services/modelwork/src/modelwork/domain/calibration/calibrator.py:418-422 | The bin is the interval the clamped prediction lies in; 1 falls in the last. |
| `Calibration.ShareIsGap` | services/modelwork/src/modelwork/domain/calibration/calibrator.py:428-432 | The weighted difference of averages is the bin's gap over the number of samples. |
| `Calibration.CountsAddUp` | services/modelwork/src/modelwork/domain/calibration/calibrator.py:418-425 | The bin counts add up to the number of samples. |
| `Calibration.EceBetweenZeroAndOne` | services/modelwork/src/modelwork/domain/calibration/calibrator.py:427-434 | The result lies between 0 and 1. |
| `Calibration.EceIgnoresOrder` | services/modelwork/src/modelwork/domain/calibration/calibrator.py:418-434 | The same samples in another order give the same result. |
| `Calibration.BinOfFiner` | services/modelwork/src/modelwork/domain/calibration/calibrator.py:418-422 | Cutting each bin into k puts a sample into one of the k pieces of its old bin. |
| `Calibration.FinerBinsNeverLower` | services/modelwork/src/modelwork/domain/calibration/calibrator.py:399-434 | Cutting every bin into k never lowers the error. |
| `Calibration.OneBinIsOverallGap` | services/modelwork/src/modelwork/domain/calibration/calibrator.py:427-434 | With one bin the error is the overall gap between mean correctness and mean clamped confidence. |
| `Calibration.OverallGapIsMissed` | services/modelwork/src/modelwork/domain/calibration/calibrator.py:414-434 | The overall gap, written out over the input. |
| `Calibration.AtLeastOverallGap` | services/modelwork/src/modelwork/domain/calibration/calibrator.py:399-434 | With any number of bins it is at least that. |
| `Publication.PublicationTables.PublishNewVersion` | services/backend/src/backend/domain/publication.py:39-86 | The gate, then one new row; or every reason and no change. |
| `Publication.PublicationTables.RebuildIndex` | services/backend/src/backend/domain/completeness.py:33-77 | The index recomputed from the pages; an acknowledged one with gaps stays acknowledged. |
| `Publication.PublicationTables.AcknowledgeGap` | services/backend/src/backend/domain/completeness.py:80-98 | Only a detected gap can be acknowledged; nothing but the state changes. |
| `PublicationProofs.GapsAreHoles` | services/backend/src/backend/domain/completeness.py:39-54 | A gap is exactly a position nobody observed between two that were. |
| `PublicationProofs.NextVersion` | services/backend/src/backend/domain/publication.py:58-71 | The next version is one more than the group has; the number is taken only for an empty or fresh group id that is already in use. |
| `PublicationProofs.RunsKeepVersions` | services/backend/src/backend/domain/publication.py:57-86 | After every run each group's versions are 1, 2, 3, ... in the order of publication. |
| `PublicationProofs.RowsHoldLastGiven` | services/backend/src/backend/domain/publication.py:68-76 | Each field of each version is the last value given for its group up to then, and is missing only when none was. |
| `PublicationProofs.EveryFieldIsCarried` | services/backend/src/backend/domain/publication.py:72-74 | That holds for all three fields. |
| `PublicationProofs.RunsKeepVolumes` | services/backend/src/backend/domain/completeness.py:33-98 | After every run an index holds the holes of its batch's last rebuild, and is acknowledged exactly when a gap was acknowledged since the last rebuild without holes. |
| `PublicationProofs.PublishSucceedsIff` | services/backend/src/backend/domain/publication_gate.py:47-65 | After every run a publication goes through if and only if its batch was never rebuilt, had no hole at its last rebuild or a gap acknowledged since, no blocking conflict names the group's last version, and a group without a version lookup is new. |
| `PublicationProofs.PublishWrites` | services/backend/src/backend/domain/publication.py:57-86 | The row of a publication that goes through: in the group asked for or a fresh one, numbered after the group's last row, with the fields given and else that row's. |
| `PublicationProofs.ReasonsName` | services/backend/src/backend/domain/publication_gate.py:68-98 | A reason names the batch and its gaps, or the version and, in order, every conflict that blocks it, with its rule. |
| `PublicationProofs.RebuildWrites` | services/backend/src/backend/domain/completeness.py:33-77 | The index a rebuild leaves: the positions of the batch's pages in order, the range they span, its holes in order, and the state that follows. |
| `PublicationProofs.AcknowledgeWrites` | services/backend/src/backend/domain/completeness.py:80-98 | Only a detected gap can be acknowledged, and only the state of that index changes. |
| `PublicationProofs.BlockedNamesEveryFailure` | services/backend/src/backend/domain/publication_gate.py:47-65 | A refused publication changes nothing and names each failing check and nothing else. |
| `PublicationProofs.AcknowledgementOutlivesItsGaps` | services/backend/src/backend/domain/completeness.py:56-72 | An acknowledgement also covers the gaps of the next rebuild, whatever pages arrived in between. |
| `PublicationProofs.NewGapPassesIff` | services/backend/src/backend/domain/completeness.py:39-72 | Which holes pass unseen: a hole of that rebuild was none when the gap was acknowledged if and only if it was observed then or lay outside all that was; with pages that only arrive, the latter. |
| `PublicationProofs.NewGapPasses` | services/backend/src/backend/domain/completeness.py:107-113 | A concrete run: position 5 was not missing when the gap was acknowledged, is missing now, and blocks nothing. |
| `PublicationProofs.EmptyGroupPublishesOnce` | services/backend/src/backend/domain/publication.py:58-68 | Where versions are numbered as every run numbers them, an empty group id publishes once, and every later publication under it collides with version 1. |

## Left out

- Crypto: SHA-256 itself, keyed hashes, signatures, key services and witnesses; the binding theorems name the colliding texts instead.
- Timestamps: `at` and `rolled_at` are numbers; only the theorems about fields and records assume that different times have different texts.
- Concurrency inside one transaction: `append` locks nothing on an empty shard, so appends to a shard are taken as serialised.
- `replay_from` of the in-memory queue, which drops pending messages, and blocking in `consume`.
- Group: the queue's three dictionaries with equal keys are one record, with two history fields that no operation reads.
- MessageQueue.InMemoryQueue.Publish: ids are numbers, not decimal strings; the brokers behind the same interface are not part of this model.
- Runner: signal handlers and session factories; a stop request is a list of fates that ends early, one consumer reads a group, and the broker refuses no ack. `failed` in a site is the log of failed handlers, which no operation reads.
- WorkerRunnerProofs.HistoriesAreSafe: the audit entry of a dead-lettered message is a note beside the log, not a row of the hash chain.
- DecisionEngine.Session.RouteExtraction: the envelope id and the time of a decision record; ids of all rows come from one counter, and audit rows carry shard, action and subject only.
- DecisionProofs.RunsDecideOnce: for runs that open no conflict under the extraction's own id; `AnyRunDecidesOnce` is the statement for all runs.
- DecisionDelivery.HandleMessage: whether the confidences differ is a parameter, since the column has no other use here.
- PageLifecycleProofs.RunsRecordPages: assumes that a page keeps its district, as it does in the repository, and that page ids are not empty.
- "Processed" means that every extraction of a page has a routing outcome, as the code checks; not that each has a decision record.
- OutboxRelay.Relay.DrainOnce: `dispatched_at` and the attempt count of a failed publication, and a broker that refuses a message.
- ReviewDesk.ReviewTables.Claim: the review session and the hour it records on the task; the oldest task is the one opened first.
- ReviewDesk.ReviewTables.SubmitTask: the verdict on an audit sample and the audit entry.
- ReviewDesk.ReviewTables.WriteCorrection: the crop link, the model and configuration versions, and the audit entry.
- ReviewDesk.ReviewTables.SkipTask: the audit entry.
- ReviewDesk.ReviewTables.ConfirmPending: the audit entries, that of a refused confirmation included.
- ReviewDeskProofs.OnlyTheMakerIsRefused: for desks with one task for each extraction, as the decision engine opens them; `ConfirmSucceedsIff` is the statement for all desks.
- ConfigVersions.ConfigTables.WriteVersion: the audit entry of a write.
- ConfigCacheProofs.RunsStayCoherent: for writes already in effect when committed and reads that fetch and store in one step; the other kinds have their exact conditions. Each client has its own group.
- ConfigCache.ConfigClient.GetEffectiveRow: the time to live only makes entries expire; waiting is not part of this model.
- Strikethrough.Classify: the rationale text of a result.
- Strikethrough, Shoelace, DeskewBox, Calibration: arithmetic is over real numbers, so rounding is not part of this model.
- LabelBinding.BindLabels: the confidence, the label box and the lineage that a binding copies; label preparation, point-in-polygon tests and distances are parameters.
- Shoelace.Area: self-intersection, noise removal and projection of geographic coordinates.
- DeskewBox: the estimate of the skew angle and the images themselves.
- Calibration.ComputeEce: fitting, thresholds and regimes.
- Publication.PublicationTables.PublishNewVersion: the status, the time and the audit entry of a publication, and foreign keys.
- Publication.PublicationTables.RebuildIndex: the audit entry of a detected gap.
- Publication.PublicationTables.AcknowledgeGap: the audit entry and the reason code.
- Routes, authentication, serialisation, migrations, storage, character recognition and model training.
