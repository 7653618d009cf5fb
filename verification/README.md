# Fleet control plane: a verified model

This project models the parts of the fleet control plane where correctness depends on more
than one body of code: protocols between racing processes, canonical encodings that are
hashed, string codecs that meet a router, and state machines judged over whole runs. Each
module states what its part promises and proves it for every input, every run or every
interleaving.

| module | what it is about |
|---|---|
| `Utf8`, `Text`, `Trimming`, `Ordering`, `Hashing`, `Wrappers` | bytes of strings, numbers and hexadecimal as text, `trim`, sorting and deduplication, what is fed to a digest |
| `TaskRequests`, `Idempotency` | the canonical bytes behind a submission's `payload_hash`, and idempotent submission built on it |
| `TemplateContent`, `TemplateLifecycle` | an agent template's body, its hashes and edit permissions, and its life |
| `TaskLifecycle`, `TaskThreads` | compare-and-set of task phases under control epochs, and the flat thread index |
| `AgentCommands` | commands and acknowledgements over an unreliable heartbeat |
| `Buckets`, `Histograms`, `HttpMetrics` | the scrape-time histogram and the lock-free request histogram |
| `AdminTokens` | start-up of many instances: manifest import and the bootstrap token |
| `JwksCache` | the key cache with its double-checked lock |
| `Base64Url`, `MasterKey`, `ServerKey`, `CredentialRoutes` | codecs, and the paths the client builds against the capabilities the API asks for |
| `WorkerRegistry`, `IssueLifecycle` | registration, heartbeat and removal of workers; the issue state machine |

Protocols are state machines over their atomic steps: one store call, one lock section, one
atomic memory operation or one message delivery is a step, and a run is any sequence of them.
A writer that decides on something it read earlier carries what it read in its step, so stale
decisions are part of every run. Code that updates fields or loops is a class or a method,
proved against the function that the state machine uses; the theorems are about that function.
A digest (SHA-256) is a parameter everywhere. Only where a property compares hash values
rather than streams is the digest required to be free of collisions.

## Where the code does not do what is expected of it

These are results, each with a concrete witness and an exact condition:

- Manifests in which two principals share a token import with Ok and leave one of them
  without a row (`AdminTokens.SharedTokenLosesAPrincipal`). Over every interleaving,
  `AdminTokens.OwnTokenGetsARow` gives a row to each principal whose token can be nobody
  else's, and `AdminTokens.EveryoneHasARowIffTokensApart` says exactly when everyone has one;
  where manifests give a principal two tokens the order of the calls decides
  (`AdminTokens.OrderDecidesWithTwoTokens`).
- A heartbeat that writes a status puts back the row it read before, so the tasks and the time
  it just reported are lost (`WorkerRegistry.BeatIsRecordedIff`): a worker that returns from
  Offline is Online with its old `last_seen`.
- Deleting a task clears `parent_task_id` in its children, so the walk over stored rows then
  ends early while the flat index still names the root (`TaskThreads.WalkFindsTheThreadIff`).
- The documentation of `command_control_epoch` calls it the epoch that issued the command now
  carried; retiring an agent issues a stop command and keeps the older epoch
  (`AgentCommands.EpochIsTheIssuersUnlessRetired`).
- A template request or an issue transition reads, decides and then writes without looking
  again, so requests that race can discard a pinned template, revive a retired one, widen what
  a template grants, or make a closed issue ready for an agent (the four lemmas whose names
  begin with `Racing`). The exact conditions, over
  every run, are `TemplateLifecycle.PinnedIsNeverDiscardedIff`,
  `TemplateLifecycle.TerminalIsFinalIff`, `TemplateLifecycle.UnmanagedEditsGrantNothingIff`,
  `IssueLifecycle.ReadyComesFromTriagedIff` and `IssueLifecycle.RunsFollowTheTableIff`: each
  names the guard that the write lacks.

## Model

| member | source | states |
|---|---|---|
| TaskLifecycle.PredecessorsInvertTheTable | crates/fleet-core/src/task.rs:595-632 | `allowed_predecessors` is the inverse of `transition_allowed`, and a phase is terminal exactly when nothing may follow it |
| TaskLifecycle.AppliedStatusesFormAPath | crates/fleet-core/src/task.rs:634-703 | in every interleaving of any writers the applied statuses of a task form a path of the table from Pending to the stored status, with at most one dispatch and one terminal status |
| TaskLifecycle.TerminalIsForever | crates/fleet-core/src/task.rs:595-632 | no run of any writers overwrites a terminal status |
| TaskLifecycle.EventsMatchApplied | crates/fleet-core/src/task.rs:705-713 | events gated on `applied()` never outnumber the applied transitions, none occurs twice, and none is missing when nothing is in flight, lost or silent |
| TaskLifecycle.LeasesGrow | crates/fleet-store/src/mem.rs:1647-1700 | a lease epoch never falls over a run |
| TaskLifecycle.EpochsCountHolders | crates/fleet-store/src/mem.rs:1647-1680 | over every run the epoch of a cluster is the number of times its lease was acquired |
| TaskLifecycle.NewHolderFencesTheOld | crates/fleet-store/src/mem.rs:1647-1680 | a new holder's epoch is above the old one, and a write that carries the old one is Fenced from then on |
| TaskLifecycle.StaleFenceIsPowerless | crates/fleet-core/src/task.rs:651-683 | a write with an epoch the lease has passed is Fenced and changes nothing, now and at every later moment |
| TaskLifecycle.DispatchEpochIsForever | crates/fleet-core/src/task.rs:364-380 | the dispatch epoch, once recorded, never changes |
| TaskLifecycle.AppliedRow | crates/fleet-store/src/mem.rs:329-344 | an applied write stores its status; a dispatch stores its time and, under a fence, the epoch of that fence; every other field, row and lease stays |
| TaskLifecycle.DispatchIsRecorded | crates/fleet-core/src/task.rs:364-380 | over every run a row carries the time and the epoch of the fence of the one dispatch that was applied to it, and neither without one |
| TaskLifecycle.LaterHoldersAreTold | crates/fleet-store/src/mem.rs:305-325 | over every run a lease holder that reports an outcome is told exactly the epoch of the fence of the applied dispatch, unless it is its own |
| TaskLifecycle.HolderFinishesWhatItDispatches | crates/fleet-store/src/mem.rs:267-342 | the holder of the lease takes any pending task through a dispatch to its outcome, and both writes apply |
| TaskLifecycle.ATaskCanLive | crates/fleet-store/src/mem.rs:267-342 | from every state, inserting, leasing, dispatching and ending a task apply and are announced, and nothing else moves |
| TaskLifecycle.StaleOutcomeNeverLands | crates/fleet-core/src/task.rs:685-703 | once the lease moved past the dispatching epoch, no fenced worker outcome lands any more; a caller that holds the lease is told the recorded epoch |
| TaskLifecycle.DecideIff | crates/fleet-store/src/mem.rs:267-342 | exactly when compare-and-set answers each of Applied, NotFound, Fenced and StaleDispatchEpoch, spelled out on leases and row, and that any other answer than Applied changes nothing |
| TaskLifecycle.RejectionNamesTheStatus | crates/fleet-store/src/mem.rs:321-325 | a rejection reports the phase of the stored status |
| TaskLifecycle.UnfencedNeverSeesEpochs | crates/fleet-cli/src/runtime.rs:1501-1544 | a caller without a fence gets neither Fenced nor StaleDispatchEpoch |
| TaskLifecycle.NoOrphanIsUnreapable | crates/fleet-core/src/task.rs:685-703 | the current holder's control decision to fail or cancel any open task always applies, whichever epoch dispatched it |
| TaskLifecycle.OriginMatters | crates/fleet-core/src/task.rs:685-703 | the same reaping declared a worker outcome would be refused forever |
| TaskLifecycle.TaskStore.CompareAndSet | crates/fleet-store/src/mem.rs:267-342 | the checks in the order of the code compute the modelled answer and new state |
| TaskLifecycle.TaskStore.RunTasksCancel | crates/fleet-cli/src/runtime.rs:1477-1545 | the fence-free cancel with any writers between its read and its write: it cancels exactly when the task was open at both, never overwrites an end, and its two unreachable answers are unreachable |
| TaskThreads.Task.InheritFromParent | crates/fleet-core/src/task.rs:438-467 | a reply takes its parent's thread, its unset fields and never its agent |
| TaskThreads.RowsAgreeWithTheWalk | crates/fleet-core/src/task.rs:307-315 | over every run, `thread_id` is the root found by walking up, the inherited fields are the nearest explicit values on that walk, and the agent is the task's own |
| TaskThreads.SameThreadIffSameRoot | crates/fleet-core/src/task.rs:307-315 | two stored tasks share a thread exactly when they share a root |
| TaskThreads.OpenTasksStay | crates/fleet-store/src/mem.rs:434-490 | over every run a task that has not ended stays stored with everything but the link to a deleted parent |
| TaskThreads.WalkFindsTheThreadIff | crates/fleet-store/migrations/013_task_threads.sql:1-28 | the walk over stored rows finds the thread exactly while no ancestor was deleted |
| TaskThreads.FlatIndexReplacesTheWalk | crates/fleet-store/migrations/013_task_threads.sql:1-28 | without deletions the flat index and the stored walk agree on every task |
| TaskThreads.DeletingTheRootCutsTheWalk | crates/fleet-store/src/mem.rs:434-490 | an ended root that is deleted leaves its reply with a walk that ends at itself and a thread that names the root |
| TaskRequests.PayloadHash | crates/fleet-core/src/task.rs:134-241 | the hasher fed piece by piece has seen exactly the modelled stream |
| TaskRequests.StreamIffMeaning | crates/fleet-core/src/task.rs:94-241 | two streams are equal exactly when version and meaning are |
| TaskRequests.SameMeaningIff | crates/fleet-core/src/task.rs:94-241 | two requests mean the same exactly when the listed fields are equal, with None and the empty string identified and the three lists as sets |
| TaskRequests.StreamReadsBack | crates/fleet-core/src/task.rs:134-241 | a decoder of the framing finds the version, the eleven fields in the order of the code, and the three sorted lists, each behind its count |
| TaskRequests.PayloadStreamIffMeaning | crates/fleet-core/src/task.rs:94-241 | the same for the version in use, which is `fleet.task.payload.v2` |
| TaskRequests.HashIffMeaning | crates/fleet-core/src/task.rs:94-241 | under a collision-free digest the stored hash decides sameness of meaning |
| TaskRequests.RouterFieldsNeverMatter | crates/fleet-core/src/task.rs:94-133 | submitter, key and what the router fills in never change the hash |
| Hashing.SplitJoin | crates/fleet-core/src/task.rs:134-160 | a decoder recovers the pieces from their u64 little-endian framing |
| Hashing.LittleEndianAt | crates/fleet-core/src/task.rs:134-160 | byte `i` of a length prefix is digit `i` of the length in base 256 |
| Idempotency.TaskStore.InsertTaskIdempotent | crates/fleet-store/src/mem.rs:209-250 | the scan and the insert compute the modelled answer and rows |
| Idempotency.InsertAnswers | crates/fleet-store/src/mem.rs:209-250 | each answer, spelled out on the stored rows: a taken id, a pair no row uses, the same hash, another hash; only Inserted stores anything, at the end |
| Idempotency.FoundIsFirst | crates/fleet-core/src/task.rs:724-772 | the row found for a pair is that of the first submission that used it |
| Idempotency.EveryAnswer | crates/fleet-core/src/task.rs:724-772 | after any submissions: a first or keyless submission is Inserted, a repeated pair is Duplicate of the first task exactly when it means the same and Conflict with its id otherwise |
| Idempotency.InsertedAtMostOnce | crates/fleet-core/src/task.rs:724-772 | a pair that was used is never inserted again |
| Idempotency.OneRowPerPair | crates/fleet-store/src/mem.rs:209-250 | over every sequence of submissions no two stored rows share an id, or a submitter and a key |
| Idempotency.RowOf | crates/fleet-core/src/task.rs:391-429 | the stored hash is present exactly when the key is |
| TemplateContent.ContentHash | crates/fleet-core/src/agent_template.rs:233-241 | the hasher has seen exactly the modelled stream |
| TemplateContent.ContentStreamIsText | crates/fleet-core/src/agent_template.rs:206-241 | the bytes fed are those of a text: version line, prompt behind its length, then the normal tools and skills behind their counts |
| TemplateContent.NormalListIs | crates/fleet-core/src/agent_template.rs:206-216 | a normal list holds the trimmed non-empty entries, each once, in byte order |
| TemplateContent.ContentStreamIff | crates/fleet-core/src/agent_template.rs:206-241 | two bodies have one stream exactly when their prompts are equal and their trimmed non-empty tools and skills are equal as sets |
| TemplateContent.DependentSetHash | crates/fleet-core/src/agent_template.rs:419-426 | the hasher has seen exactly the modelled stream |
| TemplateContent.DependentStreamIsText | crates/fleet-core/src/agent_template.rs:419-426 | the bytes fed are those of the version line and the sorted agent ids behind their count |
| TemplateContent.DependentStreamIff | crates/fleet-core/src/agent_template.rs:419-426 | two lists of agents have one stream exactly when they are equal as multisets |
| TemplateContent.NormalizedIdempotent | crates/fleet-core/src/agent_template.rs:206-216 | normalising twice is normalising once |
| TemplateContent.StoredHashVerifies | crates/fleet-store/src/mem.rs:2385-2425 | the hash of the stored, normalised body is the hash of the body that was sent |
| TemplateContent.RequiredPermissionsIff | crates/fleet-core/src/agent_template.rs:272-283 | no permission is needed exactly when the hash inputs coincide, and AgentManage exactly when the granted tools or skills change |
| TemplateLifecycle.StoredBodiesAreNormal | crates/fleet-store/src/mem.rs:2385-2425 | whatever races, every stored body is in normal form |
| TemplateLifecycle.ChangesApplied | crates/fleet-core/src/agent_template.rs:112-120 | a change of status is written exactly for six pairs of the status that was read and the target, and for the two that retire only with the present dependents confirmed |
| TemplateLifecycle.PinsApplied | crates/fleet-store/src/mem.rs:1886-1914 | a pin is taken exactly when the revision exists and is not revoked and the template is Published or Deprecated |
| TemplateLifecycle.EditsApplied | crates/fleet-store/src/mem.rs:2385-2425 | an edit appends a revision with the prompt and the grants that were sent exactly when the caller may update and may manage or grants nothing new, and the template is open to revisions |
| TemplateLifecycle.RevokedForGood | crates/fleet-store/src/mem.rs:2455-2468 | over every run a revoked revision stays revoked and takes no pin |
| TemplateLifecycle.RevokedByARequest | crates/fleet-store/src/mem.rs:2455-2468 | over every run a revision is revoked exactly when it was at the start or a request named it while it was stored |
| TemplateLifecycle.RetireConfirmsTheDependents | crates/fleet-store/src/mem.rs:2353-2383 | retiring applies exactly when the confirmed agents are, as a multiset, those that depend on the template |
| TemplateLifecycle.PinnedIsNeverDiscardedIff | crates/fleet-dashboard/src/handlers.rs:2503-2580 | over every run, racing or not: a pinned template always is Published, Deprecated or Retired if and only if every discard of a draft is written while no agent depends on the template |
| TemplateLifecycle.PinnedIsNeverDiscarded | crates/fleet-core/src/agent_template.rs:99-133 | in particular when the discards act on what they read, whatever else races |
| TemplateLifecycle.TerminalIsFinalIff | crates/fleet-dashboard/src/handlers.rs:2503-2580 | over every run: Retired and Discarded admit no further status, pin or revision if and only if no accepted change of status is written over them |
| TemplateLifecycle.TerminalIsFinal | crates/fleet-core/src/agent_template.rs:112-133 | in particular when the changes of status act on what they read, whatever else races |
| TemplateLifecycle.UnmanagedEditsGrantNothingIff | crates/fleet-dashboard/src/handlers.rs:2306-2352 | over every run without AgentManage: what the template grants stands if and only if every accepted edit was compared with a body that grants what the present one does |
| TemplateLifecycle.UnmanagedEditsGrantNothing | crates/fleet-core/src/agent_template.rs:272-283 | in particular when the edits were compared with the present body, whatever else races |
| TemplateLifecycle.StaleEditWidensIff | crates/fleet-dashboard/src/handlers.rs:2306-2352 | an accepted edit without AgentManage changes the grants exactly when the body it was compared with grants something else than the present one |
| TemplateLifecycle.RacingDiscardHitsAPinnedTemplate | crates/fleet-dashboard/src/handlers.rs:2503-2580 | a discard decided on a draft can leave a pinned template Discarded |
| TemplateLifecycle.RacingDeprecationRevives | crates/fleet-dashboard/src/handlers.rs:2503-2580 | a deprecation decided before a retirement can undo it |
| TemplateLifecycle.RacingEditWidens | crates/fleet-dashboard/src/handlers.rs:2306-2352 | a prompt edit decided while a tool was granted and written after it was withdrawn grants it again without AgentManage |
| AgentCommands.AgentStore.SetAgentDesiredStatus | crates/fleet-store/src/mem.rs:2146-2172 | computes the modelled answer and state: a new generation exactly on a change |
| AgentCommands.AgentStore.AssignAgentWorker | crates/fleet-store/src/mem.rs:2027-2127 | computes the modelled answer and state, refusals in the order of the code |
| AgentCommands.AgentStore.AckAgentCommands | crates/fleet-store/src/mem.rs:2203-2226 | acknowledgements applied one by one act as a set, and the count is the number of rows that moved |
| AgentCommands.StaleControlPlaneIsRefused | crates/fleet-store/src/mem.rs:146-157 | an epoch the lease does not hold is answered Fenced by both fenced calls, which then change nothing, and Fenced is answered only then |
| AgentCommands.StaleStepsChangeNothing | crates/fleet-store/src/mem.rs:146-157 | over every run a step fenced with an epoch the lease does not hold leaves the whole system as it was |
| AgentCommands.AssignAnswers | crates/fleet-store/src/mem.rs:2027-2112 | the condition of each placement answer, spelled out on the stored rows |
| AgentCommands.AssignedRow | crates/fleet-store/src/mem.rs:2112-2127 | the row a claimed slot leaves, and no other row moves |
| AgentCommands.DesiredRow | crates/fleet-store/src/mem.rs:2146-2172 | a wish that is news stores a new command under the fence of the caller, another one nothing |
| AgentCommands.UpdatedRow | crates/fleet-store/src/mem.rs:1996-2018 | retiring an agent asks it to stop, as a new command exactly if that is news |
| AgentCommands.CreatedRow | crates/fleet-store/src/mem.rs:1857-1955 | a new agent is asked for nothing and placed exactly where it asked, if there is a slot |
| AgentCommands.ListedIff | crates/fleet-store/src/mem.rs:2174-2201 | a worker is told the present commands of its ready agents and of retired ones until acknowledged |
| AgentCommands.ReportedRow | crates/fleet-store/src/mem.rs:2228-2275 | what a report leaves in the rows of the worker that sent it, and that no other row moves |
| AgentCommands.BeatIsSeen | crates/fleet-store/src/mem.rs:2228-2275 | a beat that arrives is what the agents of its worker are then seen as; silence about an agent erases |
| AgentCommands.NoAgentOnARemovedWorker | crates/fleet-store/src/mem.rs:626-660 | over every run no agent is placed on a worker that is not registered |
| AgentCommands.DeliveredMeansReceived | crates/fleet-core/src/agent.rs:433-449 | over every run of a lossy, delaying, duplicating network the acknowledged generation never exceeds the commanded one, and a delivered command of a placed agent was received by its present worker exactly as it is carried now |
| AgentCommands.RowsStayComplete | crates/fleet-core/src/agent.rs:420-500 | placement, observation and issue time are each there whole or not at all, over every run |
| AgentCommands.UnackedIffUndelivered | crates/fleet-core/src/agent.rs:613-630 | after every run an unacknowledged age exists exactly while the command is undelivered, and is never negative |
| AgentCommands.OneRoundTripDelivers | crates/fleet-worker/src/registration.rs:405-456 | one undisturbed answer and the next beat deliver every command of a worker, whatever was lost before |
| AgentCommands.RunningAgentsStayPut | crates/fleet-store/src/mem.rs:2077-2112 | over every run in which its worker stays and keeps reporting it, no placements move a running agent |
| AgentCommands.StartPendingUntilReported | crates/fleet-core/src/agent.rs:586-611 | a pending start ends exactly when the agent's own worker reports about it |
| AgentCommands.ClaimRespectsCap | crates/fleet-store/src/mem.rs:2066-2082 | a claimed slot leaves the worker within its cap |
| AgentCommands.CapsHoldIff | crates/fleet-store/src/mem.rs:1996-2127 | over every run a worker stays within its cap if and only if no registration of it brings the cap below its live agents and no stopped agent of it is set Ready while it is full |
| AgentCommands.EpochIsTheIssuersUnlessRetired | crates/fleet-core/src/agent.rs:462-474 | the recorded epoch moves only with the generation and is the issuing call's, except that retiring keeps the old one |
| AgentCommands.EpochIsOfTheLastIssuer | crates/fleet-core/src/agent.rs:462-474 | over every run the recorded epoch is that of the last call that issued a command other than by retiring |
| AgentCommands.RetiringKeepsTheOldEpoch | crates/fleet-store/src/mem.rs:1996-2018 | the exception happens: a stop command that names an epoch the lease has left |
| Buckets.PositionIsFirst | crates/fleet-api/src/metrics.rs:379-381 | the bucket found is at or below bound `k` exactly when the value is |
| Histograms.Histogram.Observe | crates/fleet-api/src/metrics.rs:447-458 | keeps the counts equal to how many accepted values landed in each bucket, and drops negative and non-finite values |
| Histograms.Histogram.Render | crates/fleet-api/src/metrics.rs:460-472 | each line is the number of accepted values not above its bound, lines rise to `+Inf`, and counts plus overflow equal the count |
| Histograms.SumConcat | crates/fleet-api/src/metrics.rs:447-458 | sums of parts add up |
| HttpMetrics.HttpMetrics.Observe | crates/fleet-api/src/metrics.rs:373-384 | one undisturbed observation is the three modelled steps in order |
| HttpMetrics.HttpMetrics.Render | crates/fleet-api/src/metrics.rs:386-404 | one undisturbed scrape is the modelled loads in order |
| HttpMetrics.RequestsAreCounted | crates/fleet-api/src/metrics.rs:373-384 | an undisturbed request adds one to the count, its time to the sum and one to the first bucket whose bound it does not exceed, modulo 2^64 |
| HttpMetrics.ScrapesReadTheCounters | crates/fleet-api/src/metrics.rs:386-404 | an undisturbed scrape prints the running totals of the buckets, the count and the sum |
| HttpMetrics.ScrapesAreCumulative | crates/fleet-api/src/metrics.rs:361-405 | in every interleaving of fewer than 2^64 requests, printed buckets never decrease and never exceed `+Inf` |
| HttpMetrics.ScrapesLoseNothing | crates/fleet-api/src/metrics.rs:361-405 | every line lies between the requests that had been recorded when the scrape began and those that have begun by now |
| HttpMetrics.QuietScrapesAreExact | crates/fleet-api/src/metrics.rs:361-405 | a scrape of a quiet process counts exactly, and its sum is exact as a 64-bit number |
| HttpMetrics.HttpBoundsAscend | crates/fleet-api/src/metrics.rs:334-336 | the bounds in use are ascending, as the theorems require |
| AdminTokens.TokenStore.CreateAdminToken | crates/fleet-store/src/mem.rs:814-832 | Conflict on a known principal or digest, otherwise the row is added |
| AdminTokens.TokenStore.Sync | crates/fleet-api/src/app.rs:990-1025 | an undisturbed sync writes exactly the modelled import |
| AdminTokens.ImportOfOneEntry | crates/fleet-api/src/app.rs:998-1022 | an entry of a new principal with a free token adds a row with its digest and its capabilities, any other nothing |
| AdminTokens.ImportInTwoParts | crates/fleet-api/src/app.rs:990-1025 | a manifest is imported entry by entry, in order |
| AdminTokens.TokenStore.IssueBootstrap | crates/fleet-api/src/app.rs:1046-1078 | undisturbed, a token is issued exactly on an empty table |
| AdminTokens.RowsAreNeverAltered | crates/fleet-api/src/app.rs:980-1025 | over every interleaving rows are neither altered nor lost, and digests stay unique |
| AdminTokens.OneBootstrapToken | crates/fleet-api/src/app.rs:1046-1078 | in every interleaving, with any calls failing, at most one instance obtains the bootstrap token |
| AdminTokens.SomebodyObtainsTheBootstrapToken | crates/fleet-api/src/app.rs:1046-1078 | on an empty table, with undisturbed calls of instances without manifests, one of them obtains the token once any has started, and its row is there |
| AdminTokens.NoBootstrapAfterImport | crates/fleet-cli/src/runtime.rs:544-598 | an instance whose non-empty sync returned Ok never obtains it |
| AdminTokens.RowsHaveSources | crates/fleet-api/src/app.rs:980-1078 | over every run of any manifests with any failures, each whole row, digest and capabilities, comes from the table before, from an entry of its principal, or from a bootstrap token drawn by an instance whose import did not return Ok |
| AdminTokens.RowsGrantWhatWasAsked | crates/fleet-api/src/app.rs:998-1010 | over every such run each row was there before, grants exactly what one entry of its principal lists under the digest of that entry, or is the bootstrap row with every capability |
| AdminTokens.ImportCoversTheManifest | crates/fleet-api/src/app.rs:990-1025 | after Ok every manifest principal has a row, or its token is some row's token |
| AdminTokens.OwnTokenGetsARow | crates/fleet-api/src/app.rs:990-1025 | over every interleaving of any manifests with any failures: after Ok each manifest principal whose token no other source holds has a row |
| AdminTokens.LostIffEveryTokenIsAnothers | crates/fleet-api/src/app.rs:990-1025 | in every run in which all imports return Ok (with the bootstrap token apart from the listed ones, if an instance has no manifest), a listed principal is left without a row if and only if every token it is listed with ended up as another's |
| AdminTokens.EveryoneHasARowIffTokensApart | crates/fleet-cli/src/runtime.rs:742-757 | in every such run of manifests that give each new principal one token, everyone has a row if and only if the tokens of the new principals are apart from each other and from the table |
| AdminTokens.OrderDecidesWithTwoTokens | crates/fleet-api/src/app.rs:990-1025 | with two tokens for one principal, the order of the calls decides whether one is lost |
| AdminTokens.ManyImportsAreOne | crates/fleet-api/src/app.rs:980-1025 | any number of instances with one manifest, however interleaved (and, on a table that was not empty, failing), leave exactly the table of a single import |
| AdminTokens.SharedTokenLosesAPrincipal | crates/fleet-store/src/mem.rs:814-832 | two principals that share a token get one row |
| AdminTokens.EveryoneHasARowExactlyWhen | crates/fleet-api/src/app.rs:990-1025 | over those interleavings of one common manifest, whatever it lists: everyone has a row if and only if each new principal has an entry whose token is free at its turn, read down the manifest |
| JwksCache.JwksCache.GetJwk | crates/fleet-api/src/cloudflare.rs:204-237 | undisturbed: a fresh cached key is returned untouched, anything else is fetched, and only a set that holds the key is kept |
| JwksCache.FetchRefusesIff | crates/fleet-api/src/cloudflare.rs:178-190 | an issuer is refused exactly when its name lacks the scheme or the domain, on explicit slices |
| JwksCache.FindIsFirst | crates/fleet-api/src/cloudflare.rs:204-237 | the key found is the first of the set with the id |
| JwksCache.AloneAnswersAsGetJwk | crates/fleet-api/src/cloudflare.rs:204-237 | the protocol steps of one caller with nobody in between answer and store what the undisturbed call does |
| JwksCache.LockExcludes | crates/fleet-api/src/cloudflare.rs:204-237 | while one caller fetches, no look and no other fetch happens; a caller that is dropped lets the lock go |
| JwksCache.KeysAreGenuineAndFresh | crates/fleet-api/src/cloudflare.rs:180-237 | in every interleaving a returned key is the first entry for its id in a set published by the asked issuer, whose name begins with `https://` and ends in `.cloudflareaccess.com`, stamped less than 3600 seconds before the answer was decided |
| JwksCache.OneFetchPerWindow | crates/fleet-api/src/cloudflare.rs:204-237 | while an issuer's set is unchanged and its keys are asked for, any two of its successful fetches lie 3600 seconds apart, and no fetch even begins within 3600 seconds after one |
| JwksCache.UnknownKeysRefetch | crates/fleet-api/src/cloudflare.rs:219-236 | a caller that asks for an unknown id begins another fetch within the window |
| Base64Url.EncodeInto | crates/fleet-api/src/handlers.rs:1365-1394 | the chunk loop and its remainder compute the modelled encoding |
| Base64Url.EncodingRegroupsBits | crates/fleet-api/src/handlers.rs:1365-1394 | the symbols are the big-endian bit string cut into sixes with zero fill |
| Base64Url.Encode | crates/fleet-api/src/handlers.rs:1365-1367 | the length is four thirds of the input's, rounded up |
| Base64Url.SymbolsInOrder | crates/fleet-api/src/handlers.rs:1365-1370 | the 64 symbols in their order |
| Base64Url.DecodeOfEncode | crates/fleet-api/src/handlers.rs:1365-1394 | decoding undoes encoding on every byte string |
| Base64Url.DecodesIff | crates/fleet-credentials/src/master_key.rs:77-90 | a string decodes to `b` exactly when it is the encoding of `b` |
| MasterKey.ParseInto | crates/fleet-credentials/src/master_key.rs:69-91 | the parse as it runs, byte array filled, gives the modelled key or error |
| MasterKey.ParsesIff | crates/fleet-credentials/src/master_key.rs:69-91 | accepted are exactly 64 hexadecimal digits in either case and the unpadded base64url of 32 bytes |
| MasterKey.RefusalsSay | crates/fleet-credentials/src/master_key.rs:69-91 | a refused text that reads as base64url is refused for the number of its bytes, every other as unreadable |
| MasterKey.ParseOfForms | crates/fleet-credentials/src/master_key.rs:69-107 | both text forms of a key parse back to it |
| MasterKey.FormsNeverOverlap | crates/fleet-credentials/src/master_key.rs:69-91 | no text is a form of two keys |
| ServerKey.MaskForgetsTheValue | crates/fleet-core/src/worker.rs:324-335 | the mask is the same for any two values |
| ServerKey.MaskReplacesTheValue | crates/fleet-core/src/worker.rs:324-335 | exactly the first value of `server-key=`, up to the next `&` or `#`, becomes `<redacted>` |
| ServerKey.MaskIsIdempotent | crates/fleet-core/src/worker.rs:324-335 | masking twice is masking once |
| ServerKey.MaskChangesIff | crates/fleet-core/src/worker.rs:324-335 | with a marker present, masking changes nothing exactly when the value already is the placeholder |
| ServerKey.SplitRemovesTheParameter | crates/fleet-core/src/worker.rs:356-390 | when the first marked parameter starts with the marker and has a value, that value and the endpoint rebuilt from the other parameters are returned |
| ServerKey.SplitLeavesTheRest | crates/fleet-core/src/worker.rs:356-360 | without a marker nothing is split off |
| ServerKey.SplitLeavesEmptyValues | crates/fleet-core/src/worker.rs:366-375 | an empty value is left alone |
| ServerKey.SplitLeavesInnerMarkers | crates/fleet-core/src/worker.rs:361-365 | a marker inside a parameter is left alone |
| ServerKey.SplitIff | crates/fleet-core/src/worker.rs:356-390 | for every text: a secret is split off if and only if the first marker starts a parameter and has a value, and it is that value; the remaining text closes the gap |
| ServerKey.NothingSplitOff | crates/fleet-core/src/worker.rs:356-376 | otherwise the text is returned as it is |
| ServerKey.SplitIsSecretFree | crates/fleet-core/src/worker.rs:356-390 | the endpoint that remains holds no marker unless another part did |
| CredentialRoutes.PercentEncode | crates/fleet-cli/src/credentials.rs:362-372 | the loop over the UTF-8 bytes computes the modelled encoding |
| CredentialRoutes.DecodingUndoesEncoding | crates/fleet-cli/src/credentials.rs:352-373 | percent-decoding undoes `encode_or_self` on every string |
| CredentialRoutes.ShortWayIsTheLongWay | crates/fleet-cli/src/credentials.rs:352-373 | the short way for plain names gives what encoding every byte would |
| CredentialRoutes.EncodedByte | crates/fleet-cli/src/credentials.rs:362-372 | an unreserved byte stands for itself, any other is `%` and two upper-case digits |
| CredentialRoutes.EncodingIsOneSegment | crates/fleet-cli/src/credentials.rs:352-373 | its output never holds a slash, and is empty only for the empty name |
| CredentialRoutes.ListAsksForRead | crates/fleet-cli/src/credentials.rs:209-213 | the list path, mounted or stripped, asks for Read exactly when the worker has a name |
| CredentialRoutes.ExportAsksForExport | crates/fleet-cli/src/credentials.rs:280-285 | the export path asks for Export exactly when the worker has a name, for every model |
| CredentialRoutes.PutAsksForManage | crates/fleet-cli/src/credentials.rs:158-163 | the put path asks for Manage exactly when the worker has a name |
| CredentialRoutes.DeleteAsksForManage | crates/fleet-api/src/app.rs:806-860 | the delete path asks for Manage exactly when the worker has a name and the model is not called `credential` |
| CredentialRoutes.PathsAreDistinct | crates/fleet-cli/src/credentials.rs:313-318 | different pairs of names have different paths |
| CredentialRoutes.GetNeeds | crates/fleet-api/src/app.rs:804-866 | for every path, the exact condition of each capability a GET asks for |
| CredentialRoutes.PostNeeds | crates/fleet-api/src/app.rs:804-866 | for every path, the exact condition of each capability a POST asks for |
| CredentialRoutes.PutNeeds | crates/fleet-api/src/app.rs:804-866 | for every path, a PUT asks for Manage exactly below the credentials of a named worker |
| CredentialRoutes.DeleteNeeds | crates/fleet-api/src/app.rs:804-866 | for every path, the exact condition of each capability a DELETE asks for |
| CredentialRoutes.OthersAreRefused | crates/fleet-api/src/app.rs:804-866 | no other method has a capability on any path |
| CredentialRoutes.RouteIff | crates/fleet-api/src/app.rs:762-778 | a credential route is exactly `/workers/`, a name without a slash, `/credentials` and anything |
| CredentialRoutes.ExportIff | crates/fleet-api/src/app.rs:762-778 | it exports exactly when, trailing slashes aside, its last segment is `export` |
| CredentialRoutes.NormalizedIs | crates/fleet-api/src/app.rs:736-741 | the mount point is taken off exactly where a slash follows it |
| WorkerRegistry.WorkerRegistry.RegisterWorker | crates/fleet-api/src/handlers.rs:75-180 | look-ups, conflict, self-binding, bump and upsert compute the modelled answer and table |
| WorkerRegistry.WorkerRegistry.JoinWorker | crates/fleet-api/src/handlers.rs:809-892 | computes the modelled answer and table |
| WorkerRegistry.WorkerRegistry.Heartbeat | crates/fleet-api/src/handlers.rs:236-368 | the update and the two possible upserts of the row as read leave the modelled row and answer |
| WorkerRegistry.WorkerRegistry.DeregisterWorker | crates/fleet-api/src/handlers.rs:650-707 | removes exactly the asked record |
| WorkerRegistry.RegisterAnswers | crates/fleet-api/src/handlers.rs:75-140 | the condition of each registration answer, and the record it is for |
| WorkerRegistry.RegisteredRow | crates/fleet-api/src/handlers.rs:1446-1483 | the record an accepted registration leaves, field by field: the trimmed name, the profile that was sent, Online, Closed, no tasks |
| WorkerRegistry.RegistrationEndsDrain | crates/fleet-api/src/handlers.rs:1464-1470 | after a registration the next healthy, not overloaded beat is not told to drain |
| WorkerRegistry.JoinAnswers | crates/fleet-api/src/handlers.rs:809-892 | the condition of each join answer, and the record it leaves |
| WorkerRegistry.BeatAnswers | crates/fleet-api/src/handlers.rs:236-368 | the condition of each beat answer and the status it leaves, with the 90 per cent limits |
| WorkerRegistry.DeregisterAnswers | crates/fleet-api/src/handlers.rs:650-707 | the condition of each removal answer |
| WorkerRegistry.RequestsHappen | crates/fleet-api/src/handlers.rs:75-180 | every request of a run has the effect of its handler |
| WorkerRegistry.RecordsKeepTheirProfile | crates/fleet-api/src/handlers.rs:98-171 | over every run a record has the name and the profile of its latest registration or join |
| WorkerRegistry.RegistryStaysConsistent | crates/fleet-api/src/handlers.rs:98-171 | over every run names are valid and unique, `registered_at` is the first registration's time and the incarnation began at the latest one |
| WorkerRegistry.BoundRequestsTouchOnlyTheirs | crates/fleet-api/src/handlers.rs:1404-1416 | a request bound to a worker creates no record and changes or deletes none but its own |
| WorkerRegistry.BoundRunsTouchOnlyTheirs | crates/fleet-api/src/handlers.rs:1404-1416 | the same over every run of requests bound to one worker |
| WorkerRegistry.DrainAnswersTheStatus | crates/fleet-api/src/handlers.rs:345-368 | a beat answers drain exactly when the record is Draining after it |
| WorkerRegistry.DrainLasts | crates/fleet-api/src/handlers.rs:283-368 | Draining lasts over every run until the record is registered again or removed |
| WorkerRegistry.BeatIsRecordedIff | crates/fleet-api/src/handlers.rs:262-297 | reported tasks and time are stored exactly when the beat writes no status, or they were stored already |
| WorkerRegistry.RecordsShowTheirLastReport | crates/fleet-api/src/handlers.rs:262-297 | over every run a record shows the tasks and the time of its latest registration or of its latest beat that wrote no status |
| WorkerRegistry.RecoveryKeepsLastSeen | crates/fleet-api/src/handlers.rs:283-297 | a worker back from Offline keeps its old `last_seen` |
| WorkerRegistry.ReconnectFindsTheRecord | crates/fleet-api/src/handlers.rs:98-125 | registering again under a name finds the same record |
| IssueLifecycle.Issue.TransitionTo | crates/fleet-core/src/issue.rs:304-327 | a refused call changes nothing; an accepted one leaves a reason exactly in Closed |
| IssueLifecycle.AcceptedMoves | crates/fleet-core/src/issue.rs:304-346 | exactly eleven moves are accepted, with a reason exactly into Closed, and which refusal each other request gets |
| IssueLifecycle.CloseReasonIffClosed | crates/fleet-core/src/issue.rs:296-327 | whatever races, a close reason is present exactly while Closed |
| IssueLifecycle.AgentWorkIsApproved | crates/fleet-core/src/issue.rs:105-135 | whatever races, an issue ready for an agent was made so by the last accepted request, by a caller that may approve and had read Triaged |
| IssueLifecycle.ReadyComesFromTriagedIff | crates/fleet-mcp/src/handlers.rs:1902-1955 | over every run, racing or not: every entry into ReadyForAgent comes from Triaged if and only if every accepted approval is written while the issue still is Triaged, or is ReadyForAgent already |
| IssueLifecycle.RunsFollowTheTableIff | crates/fleet-mcp/src/handlers.rs:1902-1955 | over every run: every change is an edge of the table if and only if every accepted target is the status at the write or allowed from it |
| IssueLifecycle.ChangesAreAuthorised | crates/fleet-core/src/issue.rs:105-135 | over every run, every change stores what its request asked for and is made by a caller with IssueReopen into Open, IssueUpdate into Triaged, IssueApproveAgentWork into ReadyForAgent and IssueClose into Resolved and Closed |
| IssueLifecycle.CapabilitiesSuffice | crates/fleet-core/src/issue.rs:105-135 | that one capability is enough |
| IssueLifecycle.FreshRunsFollowTheTable | crates/fleet-core/src/issue.rs:328-346 | when nothing comes between read and write, every change is an edge of the table, and ReadyForAgent is entered only from Triaged |
| IssueLifecycle.EveryStatusStaysReachable | crates/fleet-core/src/issue.rs:328-346 | from every status every other can be reached |
| IssueLifecycle.RacingApprovalRevivesAClosedIssue | crates/fleet-mcp/src/handlers.rs:1902-1955 | an approval decided before a close can make a closed issue ready for an agent |

## Left out

- PostgreSQL, its transactions and its isolation: each store call is one atomic step with the effect the in-memory store gives it.
- The in-memory store checks a fence before it takes the task lock; the model, like the SQL statement, decides both at once.
- `update_task_status`, the unconditional write of a task status: only tests use it. Deletion of ended tasks is in `TaskThreads` and not in `TaskLifecycle`.
- SHA-256, AES-GCM, JWT signatures and random generation: parameters, with drawn ids and tokens fresh where a run says so.
- Weak memory: the request histogram uses relaxed atomics; the model interleaves whole atomic operations.
- HttpMetrics.ScrapesAreCumulative: holds below 2^64 requests in one process, where no 64-bit counter of requests wraps.
- Histograms.Histogram.Observe: counts are unbounded; the source counts tasks it holds in memory in 64 bits. Sums are exact numbers, without floating-point rounding.
- AgentCommands.DeliveredMeansReceived: generations are unbounded; the source uses 64 bits. The order of commands within one answer, agent names and template pins are not modelled there.
- AdminTokens.RowsAreNeverAltered: rotation and revocation of tokens by an operator during start-up are not steps of the model.
- WorkerRegistry.RegistryStaysConsistent: requests are whole steps, as the promise is about sequential runs, and the several clock readings of one request are one. The health checker and circuit breaker, which also write statuses, are not modelled, nor is how a bootstrap token is judged.
- TaskThreads.DeletingTheRootCutsTheWalk: deletion asks for an ended task; that it is also refused while a pending task depends on the deleted one is not modelled, so the model deletes more often than the code.
- AdminTokens.EveryoneHasARowIffTokensApart: is about manifests that give each new principal one token, because with two the manifests alone do not decide.
- CredentialRoutes.ListAsksForRead: is about the path as the client builds it; what an HTTP client or proxy does to segments that are `.` or `..` is not modelled, nor a path inside the configured API address.
- Observation and event reporting of workers beyond the agents' observed status, and the other fields of a heartbeat.
- axum routing, tracing, provisioning, certificates, the dashboard's pages, the Python proxy, audit contents and log text.
- Enum names, defaults, CORS, environment checks, label parsing and TOML output: easy members.
