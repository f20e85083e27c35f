# Lohpi: a verified model of policy distribution

Lohpi lets a policy store decide, dataset by dataset, whether clients may download data
that storage nodes keep. This project models how policies travel: the store issues
versioned policies and remembers their contents in Git, goroutines race to queue them, a
batcher drains the queue into numbered messages, and nodes fold messages into their
dataset index under a version check and gate downloads with the result. It also models
the probing session that tunes the multicast parameters, the two reconciliation
procedures, the Redis-fronted lookup service, the revocation flags, the text form of
timestamps and the gossip log.

Objects whose methods change fields are classes here, with loops where the source has
loops. Each method is tied by its contract to a function of the old state, and the
properties are lemmas about those functions and about runs of state machines built from
them.

| file | part of the system |
|---|---|
| Common.dfy | results, sequences |
| DatasetIndexer.dfy | dataset table and its Redis cache |
| Node.dfy | storage node: batches, indexing, downloads |
| Multicast.dfy | recipients, packing, the multicast manager |
| Issuing.dfy, BatchQueue.dfy, Holdings.dfy | store, queue and node as protocol participants |
| Distribution.dfy, Effects.dfy | the whole distribution protocol, its runs, its steps one by one |
| CatchUp.dfy | nodes that are behind |
| Conformance.dfy | the protocol's steps against the components' operations |
| SetPolicyRace.dfy, StoreVersions.dfy | overlapping policy changes, changes with Redis |
| Probe.dfy, ProbeProperties.dfy, ProbeTermination.dfy | the probing session |
| ProbeAcknowledger.dfy, ProbeInterleaving.dfy, ProbeRealisation.dfy, ProbeForgery.dfy | prober and acknowledger interleaved |
| PolicyStore.dfy, GitFiles.dfy | policy changes, requests, reconciliation, Git |
| StateSync.dfy | node and store synchronised, twice |
| Recovery.dfy | losing rows and restoring them from Git |
| LookupService.dfy | which node stores a dataset |
| DirectoryServer.dfy, Revocation.dfy | directory reconciliation, revocation flags |
| Timestamp.dfy | timestamps as text |
| GossipLog.dfy | the log of observed gossip |

## Where the code differs from what it is for

The model follows the code. These statements, each proved, say where that matters.

- Batches are packed through a pointer to the loop variable, which `go 1.15` in go.mod
  shares between iterations, so every entry of a message is the policy drained last. The
  comment at manager.go:202 promises all of them. The method is modelled with a shared
  cell; `Pack` has both forms, `Distribution` runs with either, and
  `Distribution.DeliveredExactlyWhen` says when a node gets the current policy under each.
- With Redis on, a policy that is set never shows in `Dataset`, which the version check
  reads: `DatasetIndexer.ReadersAgreeExactlyWhen`, `Node.CachedLastWins`,
  `Node.CachedNodeRegresses`. The protocol therefore runs on uncached tables.
- Overlapping policy changes may issue one version with two contents, so that what a node
  holds depends on the order of delivery, and may take the store back to an older version:
  `SetPolicyRace.OverlapIssuesTwoContents`, `SetPolicyRace.OverlapTakesStoreBack`; exactly
  when, `SetPolicyRace.VersionsDistinctExactlyWhen` and
  `SetPolicyRace.OrderMattersExactlyWhen`. The protocol treats a change as one step.
- A policy store with Redis reads the version to increment from a copy that no change
  refreshes: it issues one version again and again, and nodes keep the first content
  (`StoreVersions.VersionsDistinctExactlyWhen`, `StoreVersions.NodeAgreesExactlyWhen`).
- Tau is never set: every manager starts with 0, doubling keeps 0, and a finished session
  installs 0 again. No round is ever saturated then, and a session may go on without end
  (`ProbeTermination.TauZeroTerminatesExactlyWhen`); so it may from sigma 0, or from above
  the cap in a network of at most four members (`ProbeTermination.TerminatesExactlyWhen`).
- A finished probing session installs a configuration without an acceptance level, and
  the session after it accepts every round: `ProbeProperties.SessionWithoutLevelIsVacuous`.
- `randomMembers` indexes with the position instead of the permuted value, so the
  recipients are always the first members; no recipient at all is possible
  (`Multicast.NobodyReceivesExactlyWhen`) and the drained batch is then lost.
- An acknowledgment that no probe caused can make the acknowledger read a nil round, or be
  counted for a round of another session: `ProbeForgery.CrashesExactlyWhen`,
  `ProbeForgery.GenuineExactlyWhen`.
- The lookup service starts with a flushed cache and lists identifiers from the cache
  alone: `LookupService.FlushedCacheListsNothing`, `DirectoryServer.MissedRowSurvives`.
- Slashes in identifiers become underscores in file names, so two datasets of one owner may
  share a file: `Recovery.RestoresExactlyWhen`.
- A restored dataset starts again at version zero and nodes ignore its next changes:
  `Recovery.IgnoredAfterRestoreExactlyWhen`.
- The reader of timestamps panics on times with exactly one zero field:
  `Timestamp.OtherwiseExactly`.
- After one failed write nothing is written to the gossip log any more:
  `GossipLog.NothingLoggedAfterFailure`.

## Model

| member | source | states |
|---|---|---|
| DatasetIndexer.DatasetIndexerUnit.Dataset | core/datasetmanager/datasetindexer.go:95-108 | The cached copy if Redis has one, else the row, readable only if named and dated |
| DatasetIndexer.DatasetIndexerUnit.DatasetExists | core/datasetmanager/datasetindexer.go:217-241 | Existence in cache or table; a miss on a readable row fills the cache, unless the cache write fails, and nothing else changes |
| DatasetIndexer.DatasetIndexerUnit.InsertDataset | core/datasetmanager/datasetindexer.go:295-307 | Inserts a row only where there is none and caches the dataset; a failed cache write is not an error; a nil dataset changes nothing |
| DatasetIndexer.DatasetIndexerUnit.SetDatasetPolicy | core/datasetmanager/datasetindexer.go:321-331 | Updates content and version of an existing row; fails without effect on the table otherwise |
| DatasetIndexer.DatasetIndexerUnit.RemoveDataset | core/datasetmanager/datasetindexer.go:263-271 | Removes the row and, unless the delete fails, the cached copy; the empty identifier keeps its row |
| DatasetIndexer.InsertedIsReadBack | core/datasetmanager/datasetindexerdb.go:138-160 | A dataset inserted where there was no row is read back whole, or not at all without a policy; an existing row stays; a cache that took it answers with it |
| DatasetIndexer.SetKeepsTheRest | core/datasetmanager/datasetindexerdb.go:163-183 | A set changes content and version of a row and nothing else |
| DatasetIndexer.SetPolicyVisibility | core/datasetmanager/datasetindexer.go:321-336 | A policy that was set is read back from the table always, and through Dataset exactly as long as no cached copy hides it |
| DatasetIndexer.ReadersAgreeExactlyWhen | core/datasetmanager/datasetindexer.go:95-108 | After a set both readers agree if and only if there is no cached copy or it already showed that policy |
| DatasetIndexer.RemovedIsGoneExactlyWhen | core/datasetmanager/datasetindexer.go:263-271 | A removed dataset stays visible if and only if its cached copy could not be deleted |
| DatasetIndexer.OtherDatasetsUntouched | core/datasetmanager/datasetindexerdb.go:124-183 | Insert, set and remove leave every other dataset as it reads |
| Node.NodeCore.ApplyPolicy | core/node/node.go:435-466 | Applies exactly the policies newer than what Dataset shows; the error cases |
| Node.NodeCore.ProcessPolicyBatch | core/node/node.go:410-431 | The loop is the fold of the single applications; a nil message or body is an error |
| Node.NodeCore.IndexDataset | core/node/node.go:257-285 | Inserts the answered policy, or an unreadable row if the answer has none; a failed request inserts nothing; a failed notification is an error after the insertion |
| Node.NodeCore.GetDataset | core/node/http.go:250-304 | Data is served exactly when the request names a client, the dataset exists, its table policy allows and a handler is set; the checkout is recorded after that, and may fail |
| Node.UncachedIsFold | core/node/node.go:424-466 | Without Redis a batch acts on the table alone |
| Node.FoldSettles | core/node/node.go:424-466 | After a batch a readable row has a version no entry exceeds, and is either unchanged or one of the newer entries; other rows are untouched |
| Node.FoldOrderInsensitive | core/node/node.go:424-466 | Any order and repetition of entries whose content is determined by dataset and version gives the same table |
| Node.BatchesOrderInsensitive | core/node/node.go:424-466 | The same for whole batches |
| Node.SwapExactlyWhen | core/node/node.go:443-448 | Two entries commute on every table if and only if they do not give one version two contents |
| Node.UnindexedEntriesIgnored | core/node/node.go:462-464 | Entries for datasets that are not indexed change nothing |
| Node.CachedLastWins | core/node/node.go:438-448 | With Redis a row ends at the last entry newer than the cached copy |
| Node.CachedAgreesExactlyWhen | core/node/node.go:438-448 | With a fresh cache that is the newest version if and only if the last newer entry is the newest |
| Node.CachedNodeRegresses | core/datasetmanager/datasetindexer.go:321-331 | A concrete batch after which a node with Redis is back at version one |
| Probe.NeededIsLeast | core/policystore/multicast/probe.go:463-465 | The required number of acknowledgments is the least whole number that is at least the acceptance level times the members |
| Probe.ProbeManager.IncreaseProbeParameters | core/policystore/multicast/probe.go:422-450 | Sigma and tau after a failed round, with int64 doubling and the two caps |
| Common.WrapsAround | core/policystore/multicast/probe.go:431-440 | A stored integer lies in its type's range and differs by whole turns |
| Probe.ProbeManager.RunRound | core/policystore/multicast/probe.go:148-150 | A round is recorded with its parameters, made current, and collects the valid acknowledgments |
| Probe.ProbeManager.AcknowledgmentsArrivedInTime | core/policystore/multicast/probe.go:404-418 | True exactly if the distinct senders in the round's table are at least the acceptance level times the members |
| Probe.ProbeManager.JudgeRound | core/policystore/multicast/probe.go:164-202 | Stop, count the success, or reset the count and adjust the parameters; finish at three |
| Probe.ProbeManager.ProbeNetwork | core/policystore/multicast/probe.go:116-215 | The rounds form a session trace, the result is the one their events determine, and the probing flag is down on every exit |
| Probe.CollectMeaning | core/policystore/multicast/probe.go:321-334 | A sender is in a round's table exactly if it acknowledged that order and session |
| ProbeProperties.CapIsHalfOfNeeded | core/policystore/multicast/probe.go:425-434 | The cap of sigma is half the required acknowledgments rounded up; these are between one and n |
| ProbeProperties.NeedsAnAckExactlyWhen | core/policystore/multicast/probe.go:463-465 | A round needs an acknowledgment if and only if the acceptance level is positive |
| ProbeProperties.FailedRoundProgress | core/policystore/multicast/probe.go:430-442 | In the region a failed round moves strictly up, sigma before tau, or is at the bounds |
| ProbeProperties.ReturnsToRegionExactlyWhen | core/policystore/multicast/probe.go:443-450 | Above the cap one failed round returns to the region if and only if n exceeds four |
| ProbeProperties.NeverReachesRegion | core/policystore/multicast/probe.go:430-442 | From sigma zero or tau zero no number of failed rounds reaches the region |
| ProbeProperties.DoublingsIsLog2 | core/policystore/multicast/probe.go:431-440 | The number of doublings to a bound is the binary logarithm rounded up |
| ProbeProperties.SaturationExactlyAfter | core/policystore/multicast/probe.go:422-450 | Both parameters are at their bounds after exactly log2(cap/sigma) + log2(hour/tau) failed rounds |
| ProbeProperties.RoundsPerFailure | core/policystore/multicast/probe.go:131-205 | A session with F failed rounds has at most 3F+3 rounds |
| ProbeProperties.ParamsOfRound | core/policystore/multicast/probe.go:139-180 | A round's parameters are those after the failed rounds before it |
| ProbeTermination.SettledExactlyAfter | core/policystore/multicast/probe.go:422-450 | From any parameters, tau 0 and sigma 0 included, exactly after Climb failed rounds they do not change any more |
| ProbeTermination.SettledBoundExactly | core/policystore/multicast/probe.go:131-205 | From any parameters, no session has more than b rounds, if rounds that cannot be increased are acknowledged, if and only if b is at least three times the climb plus three |
| ProbeTermination.SessionTerminates | core/policystore/multicast/probe.go:131-205 | If saturated rounds are acknowledged, a session that can saturate ends within three rounds for each step of its climb and three more; in the region the climb is log2(cap/sigma) + log2(hour/tau) |
| ProbeTermination.SlowestSession | core/policystore/multicast/probe.go:131-205 | A session that finishes after exactly that many rounds |
| ProbeTermination.TerminatesExactlyWhen | core/policystore/multicast/probe.go:131-205 | If saturated rounds are acknowledged, the sessions from given parameters have a bounded number of rounds if and only if they need no acknowledgment, or sigma and tau are positive and sigma is at most its cap or the members more than four |
| ProbeTermination.TauZeroTerminatesExactlyWhen | core/policystore/multicast/manager.go:94-97 | With tau 0, as in every manager, that is if and only if they need no acknowledgment |
| ProbeTermination.FinishesWithTauZero | core/policystore/multicast/probe.go:209-212 | A session started with tau 0 finishes with tau 0 |
| ProbeProperties.FinishedIsConfirmed | core/policystore/multicast/probe.go:164-214 | A finished configuration was used unchanged in the three last rounds, each acknowledged by distinct senders that are at least the acceptance level times the members |
| ProbeProperties.SessionWithoutLevelIsVacuous | core/policystore/multicast/probe.go:207-214 | A session started from a finished configuration ends after three rounds whoever acknowledges |
| ProbeAcknowledger.InsertedExactlyWhen | core/policystore/multicast/probe.go:323-334 | An acknowledgment is entered in the table of the round that was read if and only if it has that round's order and the session of the configuration that was read |
| ProbeAcknowledger.JudgedAsItIs | core/policystore/multicast/probe.go:164-205 | What is judged is the current round with its table at that time, and the third round in a row with enough entries ends the session |
| ProbeAcknowledger.ExaminedExactlyWhen | core/policystore/multicast/probe.go:312-322 | A message is examined while a session runs and dropped otherwise, against the current round and the last configuration |
| ProbeAcknowledger.SessionCanEnd | core/policystore/multicast/probe.go:116-175 | From anywhere in a session the prober can end it, with the flag down |
| ProbeAcknowledger.AckerInvKept | core/policystore/multicast/probe.go:312-334 | Every step keeps what relates the examined acknowledgment, the round that was read and the session that was read |
| ProbeAcknowledger.RunsAreGenuine | core/policystore/multicast/probe.go:312-350 | In every honest interleaving, across sessions, each table entry answers its round and session, and no nil round is read |
| ProbeAcknowledger.EntriesWereProbed | core/policystore/multicast/probe.go:312-334 | Every counted acknowledgment answers a probe that was sent |
| ProbeAcknowledger.AlwaysInRange | core/policystore/multicast/probe.go:312-334 | In every run, honest or not, the prober's bookkeeping holds and rounds are read where they are |
| ProbeInterleaving.InterleavedIsSequential | core/policystore/multicast/probe.go:131-205 | In every honest interleaving the judged rounds of a session are a sequential session over some timer events, which finishes exactly when it does |
| ProbeRealisation.SequentialIsInterleaved | core/policystore/multicast/probe.go:116-205 | Conversely, after any idle honest run, every sequential session is the judged rounds of some honest interleaving |
| ProbeInterleaving.InterleavedFinishIsConfirmed | core/policystore/multicast/probe.go:164-214 | A session that finishes in an honest interleaving has three last rounds with its parameters, each when judged with distinct senders that are at least the acceptance level times the members, all answering probes sent in that round |
| ProbeForgery.CrashesExactlyWhen | core/policystore/multicast/probe.go:315-334 | In every run, whatever messages arrive, a nil round is read if and only if a round is read before the first one is current |
| ProbeAcknowledger.TablesGenuineKeptExactlyWhen | core/policystore/multicast/probe.go:312-334 | A step keeps all tables genuine if and only if it is not the insertion of an acknowledgment of another session than its round's |
| ProbeForgery.StepsTell | core/policystore/multicast/probe.go:312-334 | What the acknowledger has read is determined by the order of the steps and the messages |
| ProbeForgery.GenuineExactlyWhen | core/policystore/multicast/probe.go:312-334 | In every run, whatever messages arrive, the tables stay genuine if and only if the steps never insert an acknowledgment of the session whose configuration was read last, with the order of the round that was read last, when that round is of an earlier session |
| ProbeForgery.ForgedAckMisfiled | core/policystore/multicast/probe.go:312-334 | A run in which a forged acknowledgment of the second session enters a table of the first |
| ProbeForgery.ForgedAckCrashes | core/policystore/multicast/probe.go:315-322 | A run in which an acknowledgment that no probe caused makes the acknowledger read a nil round |
| Multicast.RandomRecipients | core/policystore/multicast/membership.go:161-192 | The recipients for every sigma, whatever the permutations |
| Multicast.RecipientsArePrefix | core/policystore/multicast/membership.go:171-192 | A prefix of the members: sigma many of one to four, or all if there are fewer; one if sigma is negative or there are more than four |
| Multicast.RecipientsOtherwise | core/policystore/multicast/manager.go:172-183 | Choosing fails exactly in an unknown mode, or without members in random mode; LRU mode chooses nobody |
| Multicast.NobodyReceivesExactlyWhen | core/policystore/multicast/manager.go:172-183 | A batch goes to nobody if and only if the mode is LRU or a small network has sigma zero |
| Multicast.AliasedIsCopiedExactlyWhen | core/policystore/multicast/manager.go:202-216 | The batch is the drained policies if and only if they are all the same |
| Multicast.SentExactlyWhen | core/policystore/multicast/manager.go:202-216 | A policy is in some message: if drained, when copied; if last of a group, when aliased |
| Multicast.AliasedLosesPolicies | core/policystore/multicast/manager.go:206-209 | Two policies drained together, the first of which is never sent |
| Multicast.MulticastManager.Submit | core/policystore/policy.go:544-546 | A policy enters the queue at its end exactly when there is room for it |
| Multicast.MulticastManager.Drain | core/policystore/multicast/manager.go:203-216 | With submitters racing, the drained group is the old queue and then exactly the arrivals that found room, in order; the message body is their packing and the queue is left empty |
| Multicast.MulticastManager.Multicast | core/policystore/multicast/manager.go:186-272 | Keeps conservation and numbering; one message per drain, of the old queue and the admitted arrivals; on an error or an empty queue nothing is drained |
| Multicast.MulticastManager.Tick | core/policystore/policy.go:195-209 | Nothing is multicast while a session probes, else the queue is drained with submitters racing; the configuration is untouched |
| Multicast.MulticastManager.ProbeNetwork | core/policystore/multicast/manager.go:137-155 | Only a finished session replaces the configuration; tau is 0 before and after |
| Multicast.SequenceNumberExactlyWhen | core/policystore/multicast/manager.go:218-230 | The number of a message is its position if and only if the int32 has not overflowed |
| Multicast.NothingSentTwice | core/policystore/multicast/manager.go:206-216 | Of pairwise different accepted policies each is at most once in at most one group, or still waiting |
| Issuing.SetIssuesOne | core/policystore/http.go:276-288 | Without Redis a policy change issues exactly one policy, with a version never used before |
| Issuing.SetKeeps | core/policystore/http.go:276-307 | After a change the table has the newest issued policy, and every change was submitted or skipped |
| Issuing.RequestKeeps | core/policystore/policy.go:395-451 | A request is answered with an issued policy and issues at most the initial one |
| BatchQueue.QueueConserves | core/policystore/multicast/manager.go:186-216 | Each step of submitters and batcher, in any interleaving, keeps groups, batch and queue equal to the accepted policies |
| BatchQueue.CopiedBodiesAreGroups | core/policystore/multicast/manager.go:202-216 | Copied batches carry everything that was drained, in its order |
| BatchQueue.InFlightWasSubmitted | core/policystore/multicast/manager.go:206-219 | Everything queued, being drained or in a message was submitted |
| BatchQueue.QuietSentExactlyWhen | core/policystore/multicast/manager.go:202-216 | With nothing waiting, the policies in messages are the submitted ones, or the groups' last ones when aliased |
| BatchQueue.DrainConforms | core/policystore/multicast/manager.go:206-231 | Whichever submitters race with the drain, steps of the batcher lead to the queue, message and group that the method's contract names |
| BatchQueue.BatchConforms | core/policystore/multicast/manager.go:186-231 | A whole batch, recipients included, can happen as the method's contract says |
| BatchQueue.DrainWasAdmitted | core/policystore/multicast/manager.go:203-231 | Conversely, every interleaving of receives and submitters ends where that contract says for some arrivals |
| Holdings.BatchKeeps | core/node/node.go:410-466 | A node's rows stay the newest of what it received |
| Holdings.BatchKeepsVersion | core/node/node.go:443-448 | A batch never lowers a version nor changes the response a dataset started from |
| Holdings.RevocationInBetween | core/node/http.go:275-303 | A revocation between gate and record does not stop the record |
| Distribution.NodesStay | core/policystore/policy.go:195-209 | Every run starts with nothing and keeps its nodes |
| Distribution.RunsKeepInv | core/policystore/http.go:267-307 | The protocol's invariant holds in every run |
| Distribution.Safety | core/node/node.go:435-450 | In every run, whatever waits, is queued, in a message or readable was issued for its dataset and version, and no node is ahead of the store |
| Distribution.Conservation | core/policystore/multicast/manager.go:186-231 | In every run nothing accepted is lost or reordered, and messages are numbered and made of their groups; the bodies of copied messages are, in order, what was accepted and does not wait |
| Distribution.NoPolicyInTwoMessages | core/policystore/multicast/manager.go:206-216 | In every run each policy is accepted at most once, no two messages share one, and none that is sent still waits |
| Distribution.VersionNeverDecreases | core/node/node.go:443-448 | Over any part of a run in which the dataset stays indexed |
| Distribution.RequestIsAnswered | core/policystore/policy.go:395-450 | A request is answered with the policy the store has then, false at version zero for a new dataset, and changes nothing else |
| Distribution.ResponseWasCurrent | core/policystore/policy.go:450-450 | In every run each response answers a request of its node with the policy that was current at that time |
| Distribution.ConvergedExactlyWhen | core/node/node.go:410-466 | A node has the store's policy if and only if its response was it or it received it since |
| Distribution.Convergence | core/policystore/http.go:276-307 | Having received every policy issued after its response, in any order and multiplicity, a node has the store's |
| Distribution.DeliveredExactlyWhen | core/policystore/multicast/manager.go:202-216 | In a quiet system with all messages handled, exactly when the node has the store's policy, for copied and for aliased batches |
| Distribution.CheckoutsWereAllowed | core/node/http.go:266-303 | In every run each checkout was recorded after a gate step of the same client and dataset, at which the node held the recorded policy; that policy was issued and allows access |
| Distribution.OneRecordPerGate | core/node/http.go:275-303 | In every run the checkouts of a client under a policy and its requests not recorded yet are as many as the gates it passed |
| CatchUp.CanCatchUpExactlyWhen | core/node/node.go:410-466 | In every run with copied batches, a node can still get the store's current policy by queue and network steps alone if and only if that was its response or was submitted |
| Effects.ChangeTakesEffect | core/policystore/http.go:242-279 | A change is possible exactly for the store's datasets, and makes the next version current and nothing else |
| Effects.ChangeIsSubmitted | core/policystore/http.go:290-307 | Then the policy waits for the queue, or is skipped if the node is not known or Git fails |
| Effects.ResponseTakesEffect | core/node/node.go:262-279 | A response gives the node its policy unless it has the dataset |
| Effects.MessageTakesEffect | core/node/node.go:410-431 | Any message can reach any node at any time, which then has received exactly its policies of the datasets it tracks |
| Effects.RemovalTakesEffect | core/node/node.go:288-290 | A removal forgets one dataset at one node |
| Effects.UndatedTakesEffect | core/node/node.go:262-279 | A response without a policy makes a row that cannot be read, where there is none |
| Effects.DownloadTakesEffect | core/node/http.go:275-303 | A gate opens exactly for a readable policy that allows, and the download can be recorded whatever happens to the policy |
| Effects.RecordTakesEffect | core/node/http.go:295-303 | What can be recorded is exactly what passed a gate and was not recorded |
| Effects.QueueTakesEffect | core/policystore/multicast/manager.go:186-231 | Submitters and batcher act alone, and policies come from changes only |
| Conformance.SetConforms | core/policystore/http.go:237-307 | The component's policy change is the protocol's step and submits exactly when it does |
| Conformance.RequestConforms | core/policystore/policy.go:395-451 | The component's answer to a request is the protocol's, retries after a failed first commit included; it fails exactly without names or when a first commit fails, and then changes at most a file |
| Conformance.NodeConforms | core/node/node.go:257-290 | A node's batch, response and removal are the protocol's steps |
| SetPolicyRace.UndisturbedChange | core/policystore/http.go:242-279 | A handler can always run undisturbed, and then issues the next version |
| SetPolicyRace.StaleWriteRepeats | core/policystore/http.go:267-288 | The first overlapping write repeats a version; it takes the store back if and only if more than one write came after its read |
| SetPolicyRace.VersionsDistinctExactlyWhen | core/policystore/http.go:242-288 | In every run all issued versions of a dataset differ if and only if no write overlapped another |
| SetPolicyRace.OrderMattersExactlyWhen | core/node/node.go:443-448 | In every run some node's result depends on the order of two issued policies if and only if one version was issued with two contents |
| SetPolicyRace.FreshRunsAreCoherent | core/policystore/http.go:267-288 | Without overlap no version is issued with two contents |
| SetPolicyRace.OverlapIssuesTwoContents | core/policystore/http.go:242-288 | A run of two overlapping changes that issues version one with two contents |
| SetPolicyRace.OverlapTakesStoreBack | core/policystore/http.go:242-288 | A run with a third change in between that takes the store from version two to version one |
| StoreVersions.SetsAreChanges | core/policystore/http.go:237-307 | What a sequence of policy changes does to the store's datasets, whichever of them fail late |
| StoreVersions.IssuedVersions | core/policystore/http.go:242-279 | With and without Redis, the version that each of a sequence of changes issues |
| StoreVersions.VersionsDistinctExactlyWhen | core/policystore/http.go:267-279 | They are all different if and only if there is no Redis or at most one change |
| StoreVersions.CoherentExactlyWhen | core/policystore/http.go:267-279 | One version gets two contents if and only if there is Redis and two changes differ |
| StoreVersions.NodeEndsWith | core/node/node.go:443-448 | A node that receives all of them ends with the last one, but with the first one if the store has Redis |
| StoreVersions.NodeAgreesExactlyWhen | core/node/node.go:443-448 | It agrees with the store if and only if there is no Redis or the first and the last content are the same |
| PolicyStore.PolicyStoreCore.SetObjectPolicy | core/policystore/http.go:237-314 | The new table, files and goroutines, and the failure at each stage |
| PolicyStore.SetSucceedsExactlyWhen | core/policystore/http.go:242-307 | When a change succeeds and is submitted, and what is refused before anything changes |
| PolicyStore.PolicyStoreCore.GitStorePolicy | core/policystore/git.go:43-62 | The file is written even if the commit fails; empty names write nothing |
| PolicyStore.PolicyStoreCore.ProcessStorageNodePolicyRequest | core/policystore/policy.go:395-451 | A known dataset is answered, one in Git restored, any other created and stored in Git |
| PolicyStore.PolicyStoreCore.ResolveDatasetDeltas | core/policystore/policy.go:455-510 | For every iteration order, with and without Redis, and for whatever listing of the stored datasets: the table that is left and, for well-keyed reports, the answer |
| PolicyStore.ListedAsRead | core/policystore/policy.go:53-61 | The map of all datasets has each as it is read by itself |
| PolicyStore.PolicyStoreCore.AddMissing | core/policystore/policy.go:463-484 | The first loop adds exactly the datasets that exist nowhere and collects exactly the new and the stale ones |
| PolicyStore.PolicyStoreCore.Superfluous | core/policystore/policy.go:486-503 | The nested loops find exactly the stored identifiers that were not reported |
| StateSync.SetPolicies | core/node/node.go:238-244 | The node's loop over the answer, in any order |
| StateSync.StoreHoldsExactlyReported | core/policystore/policy.go:463-507 | The store ends with exactly the reported identifiers if and only if every other row was listed and has a name and no reported one is only cached; kept rows unchanged, new ones default |
| StateSync.UncachedStoreHoldsReported | core/policystore/policy.go:463-507 | Without Redis and with a complete listing those are the reported datasets, and the empty identifier if the store had it |
| StateSync.DeltaIsNewOrStale | core/policystore/policy.go:464-484 | The answer is exactly the new datasets and those whose reported version is older, with the store's policies |
| StateSync.NodeTakesMaximum | core/policystore/policy.go:478-483 | For a dataset known to the store the node ends at the newer version |
| StateSync.SecondRoundExactly | core/policystore/policy.go:478-507 | A second round leaves the store unchanged and answers exactly the rows a report cannot describe |
| StateSync.SyncIsIdempotent | core/policystore/policy.go:478-507 | With named and dated rows the second answer is empty and nothing changes |
| GitFiles.ReplacedMeaning | core/policystore/git.go:104-105 | An underscore for each slash and every other character as it is |
| GitFiles.PathOfNestedIdentifier | core/policystore/git.go:104-107 | The file of a dataset with a slash, for instance |
| GitFiles.PathsCollideExactlyWhen | core/policystore/git.go:104-107 | Two datasets share a file if and only if they have one node and are equal but for slashes where the other has underscores |
| GitFiles.StoreThenRead | core/policystore/git.go:116-145 | A stored content is read back and other datasets' files are unchanged |
| Recovery.RunsKeepInv | core/policystore/policy.go:395-451 | Over every run, rows and files hold the last content set |
| Recovery.NextRequestRestoresLast | core/policystore/policy.go:400-442 | After any run the owner's next request is answered with the last content set, or false |
| Recovery.LostIsRestored | core/policystore/policy.go:422-442 | A lost row is restored by the next request with the last content, at version zero, and no other row changes |
| Recovery.GitAgreesWithStore | core/policystore/http.go:284-305 | In every run Git and the table agree on a dataset both have |
| Recovery.RestoresExactlyWhen | core/policystore/git.go:104-146 | Every run restores the last contents, and Git always agrees with the table, if and only if no two datasets of one named owner differ only in slashes for underscores |
| Recovery.CollidingIdentifiersMix | core/policystore/git.go:104-107 | For any two colliding identifiers a run after which the one that was never set is answered with the other's content |
| Recovery.GitForgetsCollidingRow | core/policystore/git.go:104-146 | And a run after which Git disagrees with the store's row |
| Recovery.IgnoredAfterRestoreExactlyWhen | core/policystore/policy.go:433-434 | A node at version k ignores the changes after a restore if and only if there are at most k |
| LookupService.DatasetLookupService.DatasetNode | core/datasetmanager/datasetlookupservice.go:84-96 | The cached node if there is one, else the table's, unless its boot time cannot be read back |
| LookupService.DatasetLookupService.InsertDatasetNode | core/datasetmanager/datasetlookupservice.go:122-130 | Sets cache and table; a nil node changes nothing; a failed cache write is not an error |
| LookupService.DatasetLookupService.DatasetNodeExists | core/datasetmanager/datasetlookupservice.go:143-180 | Existence in cache or table, filling the cache on a miss if the row can be read and the write succeeds |
| LookupService.DatasetLookupService.RemoveDatasetNode | core/datasetmanager/datasetlookupservice.go:200-208 | Deletes from cache and table, with the table's errors |
| LookupService.DatasetLookupService.DatasetIdentifiers | core/datasetmanager/datasetlookupservice.go:245-258 | What a scan of the cache returns if there is one, else the keys of the table, each once |
| LookupService.DatasetLookupService.ReloadRedis | core/datasetmanager/datasetlookupservice.go:264-303 | Adds every row to the cache, or none if a boot time cannot be read back |
| LookupService.KeepsCoherentExactlyWhen | core/datasetmanager/datasetlookupservice.go:122-208 | Exactly which insertions and removals keep every cached entry equal to its row |
| LookupService.IdentifiersExactlyWhen | core/datasetmanager/datasetlookupservice.go:231-303 | The listed identifiers are the table's keys if and only if the cache misses none; a reload establishes that if and only if all rows can be read or none was missing |
| LookupService.ListedAfterLookup | core/datasetmanager/datasetlookupservice.go:143-180 | An existence check gets a dataset with a readable row listed; an eviction gets it off the list until then |
| LookupService.FlushedCacheListsNothing | core/datasetmanager/datasetlookupservice.go:71-78 | After the constructor's flush no identifier is listed |
| LookupService.ServeRefinesExactlyWhen | core/datasetmanager/datasetlookupservice.go:84-208 | One operation acts as on one map; it answers so if and only if it does not remove the empty identifier or look up an uncached row that cannot be read |
| LookupService.RefinesExactlyWhen | core/datasetmanager/datasetlookupservice.go:84-208 | Every sequence that does not insert the empty identifier acts as on one map, and is answered so if and only if no operation departs |
| LookupService.RefinesOneMap | core/datasetmanager/datasetlookupservice.go:84-208 | Every sequence of operations on named datasets and nodes that can be read back, with any evictions, is answered as by one map |
| LookupService.EmptyIdentifierDepartsFromMap | core/datasetmanager/datasetlookupservicedb.go:122-125 | What the empty identifier does once it was inserted |
| DirectoryServer.DirectoryServerCore.ResolveDatasetIdentifiersDeltas | core/directoryserver/directoryservercore.go:229-269 | The table after the loops, for any list and prior table and whichever cache writes fail; coherence is kept if none fails; nil arguments are errors |
| DirectoryServer.DirectoryServerCore.Superfluous | core/directoryserver/directoryservercore.go:245-262 | The nested loops find exactly the current identifiers that are not listed |
| DirectoryServer.DirectoryServerCore.UpdateRevocationState | core/directoryserver/directoryservercore.go:274-288 | Undisturbed, the dataset is flagged exactly if the message carries false |
| DirectoryServer.ListedExactlyWhen | core/directoryserver/directoryservercore.go:238-266 | Exactly the listed identifiers are left if and only if every other row was listed by the lookup service and has a name |
| DirectoryServer.ReconcileComplete | core/directoryserver/directoryservercore.go:238-266 | With a complete listing: the listed identifiers, all mapped to the sender, and again the same |
| DirectoryServer.MissedRowSurvives | core/directoryserver/directoryservercore.go:238-266 | A row the cache misses is kept whoever reports |
| Revocation.ActsExactlyWhen | core/directoryserver/directoryservercore.go:279-287 | A handler acts exactly if it found the flag other than its message has it, and then sets the flag as the message has it |
| Revocation.UndisturbedHandler | core/directoryserver/directoryservercore.go:274-288 | A handler can always run undisturbed, with the effect of the method |
| Revocation.Linearises | core/directoryserver/directoryservercore.go:274-306 | In every interleaving a dataset is flagged if and only if the last update to take effect carried false |
| Revocation.EveryHandlerTakesEffect | core/directoryserver/directoryservercore.go:279-287 | A started handler is between check and act or has taken effect |
| Revocation.RespectsRealTime | core/directoryserver/directoryservercore.go:274-288 | The order of effects keeps the order of handlers that do not overlap |
| Timestamp.RoundTripExactlyWhen | core/datasetmanager/datasetindexerdb.go:325-351 | A printed timestamp is read back if and only if its seconds are positive and its nanoseconds not zero |
| Timestamp.OtherwiseExactly | core/datasetmanager/datasetindexerdb.go:330-351 | Panic, error or lost sign in the other cases |
| Timestamp.UnixNormalises | core/datasetmanager/datasetindexerdb.go:325-351 | Nanoseconds beyond a second count as seconds |
| Timestamp.ExampleIsPrinted | core/datasetmanager/datasetindexerdb.go:325-351 | Printed forms and a text that is read back, for instance |
| Timestamp.MissingIsUnreadable | core/datasetmanager/datasetindexerdb.go:209-219 | The text of a missing timestamp is an error |
| GossipLog.GossipObserver.AddGossip | core/gossipobserver/observer.go:99-121 | The new queue, cursor and log files, and when the write error is returned |
| GossipLog.LogHoldsAllButCursor | core/gossipobserver/observer.go:99-121 | After any arrivals the log files hold all messages but the last `cursor`, in order and once |
| GossipLog.LagBoundedExactlyWhen | core/gossipobserver/observer.go:112-118 | Less than a queue's worth is missing if and only if no write has failed |
| GossipLog.NothingLoggedAfterFailure | core/gossipobserver/observer.go:112-118 | After a failed write no arrival is ever logged |

## Left out

- Transport and security: HTTP, gRPC, JSON, JWT, TLS, Ifrit and Azure; a message is a value, a malformed body or token an absent one.
- Signing, certificates and message verification: the verifiers return at once.
- SQL text and Redis commands: a table and a cache are maps; a failed cache read is a miss.
- Dates in policies: only whether a row has them is modelled; a row whose date has zero nanoseconds, and a boot time of that kind, would make its reader panic (Timestamp.dfy).
- Widths of policy versions: the int column of the table and the uint64 of the message are natural numbers here.
- Real time: timers are events, and sigma and tau are computed with exact reals instead of floats.
- Distribution.Safety: a policy change is one step, and store and nodes have no Redis; SetPolicyRace, StoreVersions and Node have the other cases one by one.
- Issuing.SetIssuesOne: for a store without Redis; with it the version is not new (StoreVersions).
- ProbeTermination.TerminatesExactlyWhen: for a sigma that is not negative and a tau of at most an hour; nothing sets others but a configuration with a negative number of recipients.
- Distribution.Convergence: the store does not lose datasets during these runs; Recovery has what happens if it does.
- ProbeAcknowledger.RunsAreGenuine: judging a round reads its table in one step; session identifiers are fresh and one session runs at a time; the random identifiers of the source may repeat.
- Probe.ProbeManager.ProbeNetwork: acknowledgments arrive from an environment, because no probe is sent (the recipient list is nil) and the wiring of acknowledgments is commented out.
- Node.NodeCore.ApplyPolicy: with Redis on, the cache writes of nodes and of the policy store succeed; DatasetIndexer has the failing ones.
- PolicyStore.PolicyStoreCore.ResolveDatasetDeltas: the listing of the stored datasets is a parameter, because `dbGetAllDatasets` scans seven columns into six variables and would panic, and with Redis keys are read as values; the answer to reports that are not well-keyed depends on the iteration order.
- StateSync.SetPolicies: the node's synchronisation loop is commented out in the source; it is modelled as written there.
- Revocation.Linearises: a handler's check is one step; the source looks the dataset up after it released the lock that protects the map.
- Git history: commits are not modelled, only the working copy; file system names with special meaning are not either.
- The queue library of the gossip log is not part of this model; its contract is taken from the comment in observer.go.
- `lruMembers` beyond its first return, the contents of acknowledgments, gossip application, launchers, configuration and generated code.
