# Reinforcement-learning test harness for consensus protocols: model and proofs

The repository drives distributed protocols with a learning agent. This project models and proves four
of its parts.

**RSL, a multi-decree Paxos** (`rsl/`). `RslNode.Node` is the protocol node, a class whose methods change
its fields as the handlers do; every method is proved equal to a function in `RslNodeSpec`. `RslSystem` is
the cluster: one step delivers any message ever sent, advances one node's clock, submits a client command
to a primary, or collects what a node has queued. The set of sent messages only grows, so messages may be
lost, repeated, delayed and reordered. `RslInvariant` states what always holds, reading all evidence about
votes and promises off the append-only logs; `RslVotes` is the quorum argument, `RslGrowth`, `RslSteps` and
`RslHandlers` carry the invariant through every handler, and `RslSafety` draws the conclusions. `RslEnv` is
the environment around the nodes, proved to produce only runs of that system from its last reset on. `RslQueue` is the order of client
commands over a run; `RslAnswers`, `RslVerdicts` and `RslTimers` say, field by field, what a node does with
each message and each tick. `RslBugs` are the two
predicates the repository scans traces with.

The code executes a decree twice in two cases: a former primary follows a new one past a decree it had already
executed (rsl/algo.go:606-608 after rsl/algo.go:707), or it is elected again at that decree, which makes it vote
on it once more (rsl/algo.go:565-576, then 700-707). So comparing decided logs index by index is not the right
statement of agreement. Each execution is therefore tagged with its decree and agreement is proved per decree.
`RslExecution` says exactly which steps execute and which of them repeat a decree. `AlarmWithoutConflict` is a
run in which the comparison in rsl/bugs.go:5-30 reports although no decree has two commands, `ReelectionRepeats`
a run of the second case, and `AlarmExactly` gives the condition for a report: repetitions have shifted two
nodes apart at some index, and the agreed log differs at the two places.

The comment on the environment's reset says that it clears all messages (rsl/env.go:108); the code creates
new nodes and leaves the messages in transit (rsl/env.go:109-141). The model follows the code: every reset
begins a new episode with those messages. `RslReset` calls a message harmless when it is no vote, promise,
proposal, or fetch past decree 0 and no answer to one, and proves that the invariant behind safety holds after
a reset exactly when all leftover messages are harmless, and that agreement and single primaries then hold
throughout the episode. `RslStaleVotes` shows that votes do harm: two votes that one run leaves in transit make
two nodes of the next episode execute different commands for one decree. The concrete runs deliver a message at
most once each time it is sent (`RslRuns`).

**Partitions of a multiset** (`util/multiset.go`), Algorithm M of section 7.2.1.5 of The Art of Computer
Programming, Volume 4A. `MultisetSpec` is the simple recursive listing, `MultisetShapes` what it means
without recursion, `Packing` the packed frames, `AlgorithmM` the algorithm on its two arrays, and
`MultisetPartitions` the grouping of elements by key and the visitor.

**The partition environment** (`types/partition_env.go`). `PartitionState` holds the state, what is offered
and what a step may do; `PartitionActions` computes the offered actions, `PartitionGrouping` the regrouping
loops, `PartitionTicks` the delivery of messages, `PartitionEnvironment` the handlers as a class,
`PartitionEffects` what a step comes to for the system below and for the agent, and `PartitionRuns` what holds
over whole runs.

**Learning policies** (`policies/`). `BonusPolicies` is the value table and the greedy bonus policy over
real numbers; `RewardMachines` the reward machine, its online tracker and the offline analyzer.

## Reading the model

- RSL: peers are fixed, no node stops or restarts within a run, and client commands do not decode as configurations
  (rsl/reconfig.go:60-64 would otherwise switch the quorum). The handler for a configuration command is
  modelled; safety is about runs without one. Timers use 64-bit wrap-around because a disabled timer holds
  the largest integer; ballots, decrees and lengths are unbounded. The decree tag of an execution is a ghost
  field. Fields the code groups in one embedded structure are one value here. Maps are scanned in any order,
  and a random draw is any possible one.
- Messages are kept by hash; hashes are taken as distinguishing the messages they are computed from.
- Algorithm M needs a nonempty multiset with positive multiplicities, as its caller guarantees
  (types/partition_env.go:256); with none the first write to the frame array would be out of range. Calls of
  the visitor are recorded in a sequence.
- Partition environment: a color is its hash, and no painted color starts with the inactive prefix
  (types/partition_env.go:27-29). There is at least one tick between partitions, and the repeat bound is not
  negative. The system below is any function of the calls made to it so far. Sorting the parts
  (types/partition_env.go:204-218) is only taken to reorder them, because its comparison is not a strict weak
  order; sorting within a part is a sort. Shuffling messages is covered by taking them in any order.
- Reward machine: predicates are any functions of the state. `BeforeAction` is the part of choosing an action
  that moves the machine.

## Model

| member | source | states |
|---|---|---|
| RslNode.Log.Add | rsl/log.go:31-33 | appends one entry and changes nothing else; the history every safety proof reads is append-only |
| RslNode.Log.AddDecided | rsl/log.go:35-37 | appends one executed command, tagged with the decree of the proposal it was queued for |
| RslNode.Node.constructor | rsl/algo.go:169-192 | a blank inactive node whose quorum is taken over its peers |
| RslNode.Node.Start | rsl/algo.go:198-204 | sets the timers and asks all peers for their status |
| RslNode.Node.Broadcast | rsl/messages.go:64-74 | queues one copy for every peer except the sender, stamped with the sender |
| RslNode.Node.Send | rsl/messages.go:76-79 | queues one message, stamped with the sender |
| RslNode.Node.Ready | rsl/algo.go:289-298 | hands over everything queued and empties the queue |
| RslNode.Node.Initialize | rsl/algo.go:206-211 | forgets remote states and asks for statuses again |
| RslNode.Node.Tick | rsl/algo.go:221-245 | one clock step with 64-bit wrap-around; nothing happens after the no-progress deadline |
| RslNode.Node.TickElection | rsl/algo.go:228-230 | a stable node that does not own its ballot re-initializes after its election deadline |
| RslNode.Node.TickHeartBeat | rsl/algo.go:231-235 | a ready owner of its ballot sends on the heart beat or when commands wait |
| RslNode.Node.TickAction | rsl/algo.go:236-244 | an expired action timer resends, re-initializes or prepares, according to the state |
| RslNode.Node.Propose | rsl/algo.go:247-249 | queues a client command |
| RslNode.Node.SendNextCommand | rsl/algo.go:251-283 | a primary proposes the next command in the next decree, or resends its last proposal |
| RslNode.Node.Step | rsl/algo.go:300-332 | dispatches a message to exactly one handler; an inactive node ignores it; the random choice made is a possible one |
| RslNode.Node.HandleStatusRequest | rsl/algo.go:334-342 | answers with the accepted ballot and decree |
| RslNode.Node.HandleStatusResponse | rsl/algo.go:344-409 | outside initialization learns from an equal peer; inside, counts statuses and acts on a majority |
| RslNode.Node.CollectHigher | rsl/algo.go:363-368 | the nodes that reached a decree, whatever order the map is scanned in |
| RslNode.Node.CollectAhead | rsl/algo.go:379-386 | the nodes ahead of the accepted proposal |
| RslNode.Node.LatestChosenTime | rsl/algo.go:394-399 | the largest reported time, at least zero |
| RslNode.Node.ActOnStatuses | rsl/algo.go:358-406 | learns from one drawn node that is further, or goes on to prepare or follow |
| RslNode.Node.ProceedFromStatus | rsl/algo.go:393-406 | sets the election time once, then prepares or becomes a follower |
| RslNode.Node.LearnVotes | rsl/algo.go:415-424 | asks one node for its log and remembers which |
| RslNode.Node.AddToExecutionQueue | rsl/algo.go:432-448 | executes a proposal, adopting a configuration when the command is one |
| RslNode.Node.LogProposal | rsl/algo.go:450-464 | logs a proposal as accepted; a higher number also becomes the prepared ballot |
| RslNode.Node.Stabilize | rsl/algo.go:466-483 | becomes primary or follower; only a former candidate that owns its ballot sets the vote timer |
| RslNode.Node.PrepareBallot | rsl/algo.go:485-509 | takes the next ballot number as its own, logs it, and asks for promises |
| RslNode.Node.HandlePrepareRequest | rsl/algo.go:511-544 | refuses a lower ballot or decree, promises a higher one, re-initializes when behind |
| RslNode.Node.Promise | rsl/algo.go:521-537 | logs the higher ballot and reports the accepted proposal |
| RslNode.Node.HandlePrepareResponse | rsl/algo.go:546-578 | keeps the freshest reported proposal and becomes primary on a majority |
| RslNode.Node.HandleAcceptRequest | rsl/algo.go:580-669 | refuses, ignores a repeat, follows, re-initializes or caches, in the order the code tests |
| RslNode.Node.Follow | rsl/algo.go:605-622 | accepts the proposal, executing the previous decree when it moves on to the next |
| RslNode.Node.ExecuteBefore | rsl/algo.go:606-609 | executes the accepted proposal exactly when the next decree follows it |
| RslNode.Node.CacheProposal | rsl/algo.go:626-668 | an initializing node keeps a run of consecutive proposals, restarting it on a gap or when full |
| RslNode.Node.HandleNotAccept | rsl/algo.go:671-688 | a refusal of a later decree re-initializes, one of a higher ballot is recorded as prepared |
| RslNode.Node.HandleAcceptResponse | rsl/algo.go:690-712 | counts a vote for the pending proposal and executes it on a majority |
| RslNode.Node.HandleFetchRequest | rsl/algo.go:714-731 | reports all accepted entries from a decree on, in log order |
| RslNode.Node.LogCached | rsl/algo.go:771-777 | logs the cached proposals, executing each previous decree |
| RslNode.Node.LogFetched | rsl/algo.go:746-769 | one fetched proposal: skip ahead, continue, or stop |
| RslNode.Node.HandleFetchResponse | rsl/algo.go:733-783 | the whole fetch, from its guards to the final re-initialization |
| RslSafety.NextInv | rsl/algo.go:300-332 | every delivery, timer step, submission or collection keeps the cluster invariant, and logs only grow |
| RslHandlers.StepGood | rsl/algo.go:300-332 | every handler, on any message ever sent and any random draw, keeps the invariant |
| RslHandlers.TickGood | rsl/algo.go:221-245 | every timer step keeps the invariant |
| RslSafety.Agreement | rsl/algo.go:432-448 | in a reachable state, two executions for the same decree, on any nodes, are of the same command |
| RslExecution.AgreementOverRun | rsl/algo.go:432-448 | and so at any two moments of a restart-free run: two executions for the same decree, on any nodes, are of the same command |
| RslExecution.ExecutionDecides | rsl/algo.go:432-448 | along a run what a node has executed, and for which decrees, only grows at the end |
| RslExecution.StepExecutes | rsl/algo.go:300-332 | a message other than a fetch answer makes a node execute exactly when it follows on to the next decree or wins a vote, and then exactly its accepted proposal |
| RslExecution.MoveExecutes | rsl/algo.go:432-448 | of all events in a reachable state only those two deliveries execute anything |
| RslExecution.RepeatsExactlyWhen | rsl/algo.go:606-608 | a step executes a decree again exactly when it executes at a node that has already executed the decree it accepted |
| RslExecution.ElectionReopens | rsl/algo.go:565-576 | winning an election takes the accepted decree up for voting again, also when the node has executed it |
| RslSafety.ExecutedInOrder | rsl/algo.go:690-712 | each node executes decrees from 0 on, never going back, skipping none, and has executed all before the accepted one |
| RslVotes.ChosenAgree | rsl/algo.go:580-625 | two commands chosen for one decree are the same, whatever their ballots |
| RslVotes.FreshestRepeats | rsl/algo.go:546-575 | a quorum that promised after a command was chosen makes the new primary repeat it |
| RslVotes.ChosenPersists | rsl/algo.go:511-578 | an accepted entry of a higher ballot is at or past a chosen decree and repeats the chosen command |
| RslSafety.ChosenValuePersists | rsl/algo.go:511-578 | once a majority logged (k, d, c) as accepted, every request to accept above number k is for a decree of at least d, and for d carries c |
| RslSafety.OneCommandPerSlot | rsl/algo.go:251-283 | all requests to accept ever sent with one ballot number have one sender, and per decree one command |
| RslSafety.ElectionSafety | rsl/algo.go:546-578 | over a whole run at most one node takes the majority branch for a ballot number, though ballots are compared by number only |
| RslSafety.PrimaryOwnsBallot | rsl/algo.go:466-483 | a primary holds as prepared and as accepted one ballot, its own, under which it logged a proposal |
| RslSafety.NoTwoPrimaries | rsl/bugs.go:57-67 | no reachable state has two primaries with the same accepted ballot number |
| RslSafety.LogReplays | rsl/algo.go:450-464 | replaying a log from empty rebuilds exactly the accepted proposal and the prepared ballot; entries are ordered and gap-free |
| RslSafety.PreparedBallotRises | rsl/algo.go:485-495 | the prepared ballot changes only by a strictly higher number |
| RslHandlers.FetchStartsThere | rsl/algo.go:714-724 | the answer to a fetch starts at a decree no later than the one asked for, because accepted decrees have no gaps |
| RslHandlers.FetchChangesNothing | rsl/algo.go:733-783 | a fetch answer in a reachable state changes nothing accepted |
| RslSafety.FetchNeverAccepts | rsl/algo.go:746-749 | delivering a fetch answer either does nothing, forgets whom it learned from, or re-initializes |
| RslBugs.MultiplePrimaries | rsl/bugs.go:49-73 | reports the first state of a trace with two primaries of one ballot number, and only then |
| RslBugs.PrimariesClash | rsl/bugs.go:57-67 | the scan of one state: a clash is found exactly when two primaries share a number |
| RslBugs.NeverTwoPrimaries | rsl/bugs.go:49-73 | the scan never reports in a reachable state |
| RslBugs.InconsistentLogState | rsl/bugs.go:5-30 | reports exactly when two decided logs differ at an index both have |
| RslBugs.CollectCommands | rsl/bugs.go:19-24 | the commands decided at an index by any node |
| RslBugs.LongestLog | rsl/bugs.go:6-17 | the length of the longest decided log |
| RslBugs.AlarmMeansReexecution | rsl/bugs.go:5-30 | while no node has executed a decree twice the log comparison stays silent |
| RslBugs.LateByRepeats | rsl/bugs.go:18-27 | index j of a decided log holds decree j minus the repetitions up to there |
| RslBugs.AlarmExactly | rsl/bugs.go:5-30 | in a reachable state the comparison reports exactly when two nodes have repeated decrees so often before some index that the agreed log differs where they have come to |
| RslBugs.AlarmByRepetitions | rsl/bugs.go:5-30 | when different decrees carry different commands, exactly when two nodes reach one index after different numbers of repetitions |
| RslBugs.DistilledLogsAgree | rsl/bugs.go:18-27 | with repeated executions removed, any two decided logs agree index by index |
| RslDoubleExecution.AlarmWithoutConflict | rsl/algo.go:606-608 | a concrete restart-free run of two nodes in which the log comparison reports although no decree was decided twice differently |
| RslReelection.ReelectionRepeats | rsl/algo.go:700-707 | a concrete restart-free run in which a former primary is elected again and executes the decree it had executed once more |
| RslQueue.FirstInFirstOut | rsl/algo.go:247-274 | at any moment of a restart-free run the commands a node has proposed for new decrees under its own ballots, followed by those waiting, are exactly the commands submitted to it, in order |
| RslQueue.MoveInLine | rsl/algo.go:247-274 | no event but a submission changes that line of commands, which a submission joins at the end |
| RslAnswers.BroadcastReachesOthers | rsl/messages.go:64-74 | every peer but the sender gets a broadcast, as often as it is listed, and nobody else does |
| RslAnswers.StatusAnswered | rsl/algo.go:334-342 | a status question is answered with the ballot, decree and time of what was last accepted, and nothing else changes |
| RslAnswers.AcceptedFromPicks | rsl/algo.go:714-724 | what a fetch answer holds: exactly the accepted entries from the decree asked for on, in log order |
| RslAnswers.FetchAnswered | rsl/algo.go:714-731 | a fetch is answered with exactly these, and nothing else changes |
| RslAnswers.StatusCounted | rsl/algo.go:351-391 | below a majority, or with a stale cache, a status is only counted; otherwise, if a counted status is ahead of what is accepted or has reached the first cached decree, a fetch goes to such a node and initializing goes on |
| RslAnswers.LeavesInitializing | rsl/algo.go:357-407 | a node leaves initializing exactly when a majority answered, its cache is not stale and nobody reported a later decree under no lower ballot, the same decree under a higher ballot, or the first cached decree; it then stands under the next ballot if its time is over or it owns its ballot, and follows otherwise |
| RslAnswers.StatusWhenSettled | rsl/algo.go:345-349 | a node that is not initializing fetches exactly from an equal peer of no lower ballot when its cache is empty |
| RslVerdicts.PrepareRefused | rsl/algo.go:512-520 | a lower ballot or decree is refused with one answer that names the prepared ballot and accepted decree; otherwise an initializing node is silent |
| RslVerdicts.PrepareGranted | rsl/algo.go:520-540 | a higher ballot is logged and promised, with a report of what is accepted; a node that is behind also asks for statuses |
| RslVerdicts.PrepareSettles | rsl/algo.go:538-542 | after that the node follows, or is initializing when it is behind; what it has accepted and its queues stay |
| RslVerdicts.AcceptRefused | rsl/algo.go:581-604 | a request for a lower ballot or decree gets exactly one refusal, with the prepared ballot and accepted decree; invalid and repeated requests have no effect |
| RslVerdicts.AcceptTaken | rsl/algo.go:605-625 | the same decree under a higher ballot, or the next under the same, is logged, accepted and voted for; anything further asks for statuses |
| RslVerdicts.AcceptSettles | rsl/algo.go:605-622 | the times an accepted proposal sets, and the state it leads to |
| RslVerdicts.AcceptExecutes | rsl/algo.go:606-609 | the accepted decree is executed, with its configuration, exactly when the request is for the next |
| RslVerdicts.CacheRefuses | rsl/algo.go:627-640 | an initializing node refuses what lies below its last cached proposal and below what it has accepted, and drops other earlier requests |
| RslVerdicts.CacheTakes | rsl/algo.go:641-667 | any other request becomes the last of the cache, which stays a succession within its bound |
| RslVerdicts.CacheIgnores | rsl/algo.go:581-589 | an invalid request has no effect on an initializing node |
| RslVerdicts.RefusalHeeded | rsl/algo.go:671-688 | a refusal of a later decree asks for statuses, one of a higher ballot for the same decree is followed and logged, and any other has no effect |
| RslVerdicts.DeposedPrimaryStepsDown | rsl/algo.go:590-599 | a primary whose request reaches a node that promised a higher ballot gets one refusal, and on its delivery follows that ballot |
| RslVerdicts.PromiseCounted | rsl/algo.go:546-578 | a fitting promise is counted and a fresher report kept; with a majority the candidate accepts it under its own ballot and asks all others to; any other promise has no effect |
| RslVerdicts.VoteCounted | rsl/algo.go:690-712 | a fitting vote is counted and with a majority the proposal is executed; any other vote has no effect |
| RslVerdicts.FetchedTaken | rsl/algo.go:746-769 | replaying a fetched log accepts exactly the proposals that climb by one decree under rising ballots and executes each decree passed |
| RslVerdicts.CachedTaken | rsl/algo.go:771-777 | the cached proposals are logged in order, and where they succeed each other every decree passed is executed |
| RslVerdicts.FlushedAfter | rsl/algo.go:770-780 | when the cache can follow, one climbing proposal and then all cached ones are accepted, and the node follows |
| RslVerdicts.FetchResponse | rsl/algo.go:733-745 | only an answer of the node learned from counts, and it ends the learning |
| RslTimers.StartsBlank | rsl/algo.go:169-211 | a new node is blank, and starts by asking for statuses with only the deadline for progress set |
| RslTimers.NoProgress | rsl/algo.go:223-227 | past the deadline without progress only the clock advances |
| RslTimers.InitializingWaits | rsl/algo.go:239-240 | an initializing node asks for statuses again exactly when its timer is over, and keeps its ballot and log |
| RslTimers.CandidateWaits | rsl/algo.go:241-242 | a candidate asks for the same promises again exactly when its timer is over, under the same ballot |
| RslTimers.FollowerWaits | rsl/algo.go:228-230 | a node that follows another asks for statuses exactly when its election time is over |
| RslTimers.OwnerWaits | rsl/algo.go:228-243 | a node that owns its ballot only waits, unless it is primary and has accepted a proposal under it |
| RslTimers.PrimaryProposes | rsl/algo.go:231-235 | a ready primary with commands proposes the oldest one for the next decree to all others at the next tick |
| RslTimers.PrimaryWaits | rsl/algo.go:231-238 | a primary that waits for votes or has no commands sends its last proposal again exactly when its timer or the heart beat is over |
| RslTimers.TickKeepsBallot | rsl/algo.go:221-245 | no tick changes the prepared ballot, and only a primary logs anything |
| RslReset.ResetInv | rsl/env.go:109-141 | after a reset the invariant the safety proofs rest on holds exactly when every message left in transit is harmless |
| RslReset.EpisodeInv | rsl/env.go:109-141 | with harmless leftovers it holds throughout the episode |
| RslReset.ExecutedIsDecreed | rsl/env.go:109-141 | with harmless leftovers a majority has accepted whatever a node has executed |
| RslReset.AgreementAfterReset | rsl/env.go:109-141 | agreement per decree in every episode that starts with harmless messages only |
| RslReset.PrimariesAfterReset | rsl/env.go:109-141 | and at most one primary per ballot number |
| RslReset.WidenReachable | rsl/env.go:109-141 | messages left over take no step away from the new nodes |
| RslStaleVotes.StaleVoteExecutes | rsl/algo.go:700-710 | a vote left from an earlier episode makes a primary execute a decree no majority has accepted |
| RslStaleVotes.StaleVotesBreakAgreement | rsl/env.go:109-141 | a run of three nodes that leaves two votes in transit, and one after the reset in which two nodes execute different commands for decree one |
| RslEnv.Environment.constructor | rsl/env.go:98-141 | numbered nodes, started, with their first questions queued; the trace is a run of one state |
| RslEnv.Environment.Reset | rsl/env.go:109-141 | new nodes, the messages in transit kept; a new episode begins with them |
| RslEnv.Environment.StartsAnew | rsl/env.go:109-141 | an episode that began with nothing in transit is a run from the beginning |
| RslEnv.Environment.Tick | rsl/env.go:185-204 | one clock step of every node, each exactly once, and what they queue is put in transit; the calls since the last reset stay one episode of the cluster |
| RslEnv.Environment.DeliverMessage | rsl/env.go:215-252 | a command is submitted to every primary once, any other message is stepped once by its receiver, then all queues are emptied into transit; a message somebody took leaves transit, others stay |
| RslEnv.Environment.ProposeToAll | rsl/env.go:219-225 | the command is submitted to every primary, each exactly once |
| RslEnv.Environment.CollectAll | rsl/env.go:238-246 | every queue ends empty and its messages are in transit; no node changes otherwise |
| RslEnv.Environment.FindPrimary | rsl/env.go:169-174 | finds a primary exactly when there is one, whatever order the nodes are scanned in |
| RslEnv.Environment.DropMessage | rsl/env.go:263-274 | only the pool of deliverable messages shrinks |
| RslEnv.Environment.ReceiveRequest | rsl/env.go:161-181 | the request goes to one primary if there is one, and only then leaves the request list |
| RslEnv.Environment.IsReachable | rsl/env.go:185-252 | whatever calls are made, the nodes are in a state reachable from new nodes with the messages the last reset left in transit |
| RslEnv.Environment.NodesAgree | rsl/env.go:185-252 | when those messages are harmless, two nodes of the environment never execute different commands for one decree |
| RslEnv.Environment.PrimariesDiffer | rsl/env.go:185-252 | when those messages are harmless, two primaries of the environment hold different ballot numbers |
| Vectors.FitLargest | util/multiset.go:113-130 | the part a new frame starts with is the largest below both the remainder and the previous part |
| Vectors.PredLargest | util/multiset.go:174-180 | the lowered part is the largest one below the current part |
| MultisetSpec.EnumerateSound | util/multiset.go:79-184 | everything listed is a partition: nonzero parts, descending, adding up to the multiplicities |
| MultisetSpec.EnumerateComplete | util/multiset.go:79-184 | every partition is listed |
| MultisetSpec.EnumerateOrdered | util/multiset.go:79-184 | the listing is strictly decreasing in lexicographic order |
| MultisetSpec.DeadEnd | util/multiset.go:165-173 | no partition starts with a part that takes nothing of the first component left, which is why backtracking loses nothing |
| MultisetShapes.PartitionMeans | util/multiset.go:145-157 | the recursive and the flat description of a partition agree: nonzero parts, descending, columns adding up |
| MultisetShapes.ListsExactlyPartitions | util/multiset.go:186-189 | membership in the listing is exactly being a partition of the multiset |
| MultisetShapes.ListedOnce | util/multiset.go:186-189 | no partition is listed twice |
| MultisetShapes.EveryDivisionOnce | util/multiset.go:186-189 | every way to divide the multiset, its parts in any order, is listed exactly once |
| Packing.SubtractedFits | util/multiset.go:109-131 | subtracting a frame lays out the remainder with the largest part that can follow |
| Packing.LoweredIsPred | util/multiset.go:161-180 | lowering a packed frame lays out the lexicographic predecessor of its part |
| Packing.LoweringTakesFirst | util/multiset.go:165 | lowering stops taking of the first component exactly when the part is one unit of it alone |
| AlgorithmM.PushKeepsAhead | util/multiset.go:133-139 | pushing a frame does not change what is still to be visited |
| AlgorithmM.VisitIsNext | util/multiset.go:145-157 | at a visit the chosen parts are the next partition of the listing |
| AlgorithmM.LowerKeepsTodo | util/multiset.go:174-180 | lowering the last part leaves exactly what was still to be visited |
| AlgorithmM.BacktrackKeepsTodo | util/multiset.go:165-173 | dropping a frame that cannot be lowered loses nothing |
| AlgorithmM.BacktrackTest | util/multiset.go:165 | the test of step M5 holds exactly when the lowered part takes nothing of the first component |
| AlgorithmM.RoomForNext | util/multiset.go:86-104 | the next frame ends before the last of the m*n+1 cells and its start fits into the n+1 frame cells |
| AlgorithmM.RemainderShrinks | util/multiset.go:133-139 | every frame leaves strictly less, so the frames stay at most as many as the elements |
| AlgorithmM.SubtractComponent | util/multiset.go:114-130 | one component of step M2 in place: what is written, what is left alone, and the flag |
| AlgorithmM.SubtractFrame | util/multiset.go:109-131 | step M2 in place: the new frame after the old ones, which stay as they are |
| AlgorithmM.SpellPart | util/multiset.go:148-154 | one part spelled out, every key as often as the frame says |
| AlgorithmM.SpellParts | util/multiset.go:145-157 | step M4: all chosen parts spelled out |
| AlgorithmM.FindLastTaken | util/multiset.go:161-164 | the scan finds the last component taken and never leaves the frame |
| AlgorithmM.LowerFrame | util/multiset.go:175-178 | step M5 in place: the frame is lowered, the cells below it stay |
| AlgorithmM.Initialize | util/multiset.go:80-104 | step M1: the first frame takes everything and everything lies ahead |
| AlgorithmM.Descend | util/multiset.go:108-143 | steps M2 and M3 until nothing is left: stays in bounds, terminates, keeps what lies ahead |
| AlgorithmM.Advance | util/multiset.go:159-182 | steps M5 and M6: stops exactly when nothing is left to visit, otherwise what lies ahead is what was left |
| AlgorithmM.EnumeratePartitions | util/multiset.go:79-184 | the visits are the listed partitions, one call each, in that order; the method terminates within its arrays |
| SortedStrings.SortedIsUnique | util/multiset.go:41-44 | the sorted keys do not depend on the order the map is iterated in |
| SortedStrings.SortStrings | util/multiset.go:44 | a sorted permutation |
| MultisetPartitions.ToMap | util/multiset.go:26-36 | groups the elements by key, in order, with no other keys |
| MultisetPartitions.KeysAndMultiplicities | util/multiset.go:38-50 | every key once, ascending, with the number of its elements |
| MultisetPartitions.PlacePart | util/multiset.go:201-208 | each key takes the next unused element of that key, and the index stays below their number |
| MultisetPartitions.PlacePartition | util/multiset.go:194-211 | every element of the multiset is placed exactly once, in the place of its key |
| MultisetPartitions.EnumeratePartitions | util/multiset.go:191-215 | one division of the elements for every partition of the multiplicities, each using every element exactly once |
| MultisetPartitions.EveryShapeOnce | util/multiset.go:186-189 | every division of the multiset into nonempty parts has the shape of exactly one enumerated partition |
| PartitionActions.CreateActions | types/partition_env.go:246-277 | every regrouping offered can be carried out, and every possible one is offered exactly once |
| PartitionActions.Actions | types/partition_env.go:245-327 | the actions offered are exactly those allowed: keep, regroup, stop, start, request, byzantine |
| PartitionActions.StopActions | types/partition_env.go:285-298 | one stop for every color of an active node, and no other |
| PartitionActions.ByzantineActions | types/partition_env.go:310-324 | one action for every color of an active node that is not byzantine yet, and no other |
| PartitionActions.EachOfferedOnce | types/partition_env.go:258-276 | every regrouping of the active colors has exactly one action, up to order of parts and within parts |
| PartitionActions.NodePartitionOnce | types/partition_env.go:258-276 | whichever way the active nodes are divided, exactly one action matches it |
| PartitionGrouping.AssignReplicas | types/partition_env.go:751-771 | no bucket runs dry when there are enough nodes of each color; the old colors grouped by the new map are the parts asked for; all nodes are assigned when all are asked for |
| PartitionGrouping.GroupNodes | types/partition_env.go:772-779 | every node in the one part its map entry says |
| PartitionGrouping.ShowParts | types/partition_env.go:847-857 | the parts shown are the colors grouped by the map, each part sorted, the parts in some order |
| PartitionGrouping.DropEmpty | types/partition_env.go:700-707 | keeps the nonempty parts in order |
| PartitionGrouping.NumberParts | types/partition_env.go:708-712 | every node is mapped to the number of its part |
| PartitionRuns.OfferedUsesAll | types/partition_env.go:258-276 | an offered regrouping asks for every node exactly once |
| PartitionRuns.CreateQuarantines | types/partition_env.go:267-275 | after an offered regrouping the inactive nodes are exactly the last part of the map it makes |
| PartitionRuns.OfferedStopStart | types/partition_env.go:616-653 | an offered stop takes away exactly one active node of its color, an offered start brings back exactly one inactive node |
| PartitionRuns.StepInv | types/partition_env.go:920-949 | every offered action keeps all maps consistent, inactive nodes quarantined and limits respected, whatever the system answers |
| PartitionRuns.RunInv | types/partition_env.go:920-949 | all of that in every state of every run |
| PartitionRuns.CrashStep | types/partition_env.go:607-653 | one step spends the crash budget exactly when it stops a node, and changes the number of inactive nodes by exactly its stop or start; for every system below |
| PartitionRuns.ByzantineBudgetStep | types/partition_env.go:576-604 | one step spends the byzantine budget exactly when the system can take the node over; otherwise nothing is spent and no node is marked |
| PartitionRuns.CrashBudget | types/partition_env.go:279-304 | over a run stops plus remaining crashes is the crash limit and inactive nodes are stops minus starts; for every system below |
| PartitionRuns.ByzantineBudget | types/partition_env.go:306-324 | over a run takeovers plus the remaining byzantine budget is its limit; with a system that cannot take nodes over nothing is ever spent and no node is marked |
| PartitionRuns.StopOffered | types/partition_env.go:279-298 | a stop of a color is offered exactly when some active node of the color may crash within the limits of crashes and inactive nodes |
| PartitionRuns.StartOffered | types/partition_env.go:299-304 | a start is offered exactly when crashes are on and a node is inactive |
| PartitionRuns.OthersOffered | types/partition_env.go:245-324 | keeping is offered exactly when a node is active, a request exactly when one waits and can be delivered, a takeover exactly while the budget lasts and an active node of the color is left |
| PartitionRuns.RepeatMeans | types/partition_env.go:862-869 | the repeat count never claims more than there is: as many states before showed the same partition |
| PartitionRuns.RepeatCounts | types/partition_env.go:862-869 | and no less, up to its bound: while regroupings, stops and starts leave the partition shown as it is, each one counts |
| PartitionGrouping.ShowsEveryNodeOnce | types/partition_env.go:847-857 | the partition shown to the agent shows the color of every node exactly once |
| PartitionEffects.DropsJustified | types/partition_env.go:808-816 | in all ticks of a step a dropped message has an inactive receiver, or known endpoints in different parts |
| PartitionEffects.TickHandles | types/partition_env.go:790-819 | a tick handles every pending message, or as many as its limit allows |
| PartitionEffects.TicksFromShown | types/partition_env.go:782-829 | every message delivered or dropped was pending in what the system showed after the tick before |
| PartitionEffects.PartitionTold | types/partition_env.go:782-829 | a regrouping makes only deliveries, drops and the configured number of ticks |
| PartitionEffects.StopStartTold | types/partition_env.go:616-658 | an offered stop or start calls the system for one node of the color, the one that changes, and ticks once |
| PartitionEffects.ByzantineTold | types/partition_env.go:576-604 | an offered takeover is told the system for the one active node it marks; an unable system is told nothing |
| PartitionEffects.ShowsPictures | types/partition_env.go:836-845 | the agent is shown the state of every node as the system has it and its color, marked exactly when inactive |
| PartitionEffects.StopStartKeepsTogether | types/partition_env.go:678-712 | nodes that stay active keep together, a started node is alone, a stopped one joins the inactive ones |
| PartitionTicks.DeliveredOrDropped | types/partition_env.go:804-819 | every message examined in a tick is delivered or dropped, exactly once |
| PartitionTicks.StepIsolates | types/partition_env.go:782-829 | in all ticks of a step nothing is delivered that the partition blocks and nothing dropped that it allows |
| PartitionTicks.QuarantineHolds | types/partition_env.go:808-816 | no message of an inactive known node gets through, and none to an inactive node |
| PartitionTicks.TicksConfined | types/partition_env.go:782-829 | in a consistent state the deliveries of a step stay within parts and among active nodes |
| PartitionEnvironment.IsSamePartition | types/partition_env.go:1463-1478 | true exactly when the partitions are equal color by color |
| PartitionEnvironment.PartitionEnv.constructor | types/partition_env.go:449-463 | starts in the reset state |
| PartitionEnvironment.PartitionEnv.Reset | types/partition_env.go:530-569 | one call to the system below; everyone active in one part with full budgets |
| PartitionEnvironment.PartitionEnv.Recolor | types/partition_env.go:836-845 | every node gets the color of its new state, marked when inactive, and nothing else changes |
| PartitionEnvironment.PartitionEnv.OneTick | types/partition_env.go:784-828 | examines min(pending, limit) different messages, delivers those allowed, drops the others, then ticks |
| PartitionEnvironment.PartitionEnv.RunTicks | types/partition_env.go:782-829 | the configured number of ticks, the first on the messages kept, the others on those the system shows |
| PartitionEnvironment.PartitionEnv.HandlePartition | types/partition_env.go:740-871 | makes the step described: nodes regrouped as asked, ticks passed under the new partition, state shown |
| PartitionEnvironment.PartitionEnv.ChangeActive | types/partition_env.go:620-653 | one stop or start call for one eligible node, or none when there is none |
| PartitionEnvironment.PartitionEnv.RegroupActive | types/partition_env.go:678-712 | nodes that stay keep together, a returning node is alone, inactive nodes share a part, no part is empty |
| PartitionEnvironment.PartitionEnv.HandleStartStop | types/partition_env.go:607-738 | makes the step described and ticks once |
| PartitionEnvironment.PartitionEnv.HandleRequest | types/partition_env.go:873-918 | hands over the first pending request if one can be delivered and shows the result; otherwise nothing changes |
| PartitionEnvironment.PartitionEnv.HandleByzantine | types/partition_env.go:576-604 | marks one node of the color not byzantine yet, if the system can; otherwise nothing changes |
| PartitionEnvironment.PartitionEnv.Step | types/partition_env.go:920-949 | an offered action leaves the environment valid and makes exactly the calls described; deliveries stay confined, drops are justified, both are of messages shown, and the agent is shown the nodes as the system has them |
| PartitionEnvironment.RunEpisode | types/agent.go:47-88 | an episode of offered actions is a run, so everything proved of runs holds of it; it stops early only when nothing is offered |
| BonusPolicies.QTable.Get | policies/property_guided.go:35-43 | the value or the default, which is then stored |
| BonusPolicies.QTable.Set | policies/property_guided.go:45-50 | writes one value and changes no other |
| BonusPolicies.QTable.Max | policies/property_guided.go:57-76 | a largest known value, or the default for a state without actions or whose best action has the empty name |
| BonusPolicies.QTable.MaxAmong | policies/property_guided.go:87-109 | a best available action, where an unknown one counts as the default and is stored with it |
| BonusPolicies.UpdateBounded | policies/bonus.go:72 | the t-th update of a pair gives a value between 1/t and 1 |
| BonusPolicies.BonusPolicyGreedy.constructor | policies/bonus.go:21-30 | no updates yet, all bounds hold |
| BonusPolicies.BonusPolicyGreedy.Update | policies/bonus.go:62-74 | the pair gets its old value mixed with the larger of 1/t and the discounted best next value, and nothing else changes; after any sequence of updates a pair updated t >= 1 times lies between 1/t and 1 and any other stored pair is 1 |
| BonusPolicies.BonusPolicyGreedy.UpdateIterationRm | policies/bonus.go:94-104 | learns every transition of the segment once, the last first: position by position the history gains the segment backwards |
| BonusPolicies.BonusPolicyGreedy.NextAction | policies/bonus.go:42-60 | the drawn action when exploring, else an available action no other available one exceeds, an untried one counting as 1; one with an empty name is refused |
| RewardMachines.RewardMachine.constructor | policies/reward_machine.go:22-37 | two states, the first entered by everything |
| RewardMachines.RewardMachine.AddState | policies/reward_machine.go:41-51 | the new state comes right before the last one |
| RewardMachines.AddedKeeps | policies/reward_machine.go:41-51 | a fresh name keeps the machine well formed and is tried right before the last state; all other decisions stay |
| RewardMachines.OfflineMeans | policies/reward_machine_util.go:44-69 | the analyzer's position is the one of the latest state of the episode that enters anything |
| RewardMachines.OnlineMeans | policies/reward_machine.go:138-171 | the tracker's position is the last one the next state enters, or the last of the machine; a one-time machine stays there once entered |
| RewardMachines.AgreeIffTotal | policies/reward_machine.go:145-171 | on any machine with two states or more, tracker and analyzer compute the same positions on every episode exactly when every state enters some machine state |
| RewardMachines.OneTimeAgrees | policies/reward_machine.go:148-171 | for a one-time machine they agree on an episode exactly when it stays in the last state once entered |
| RewardMachines.AgreeAfterAdding | policies/reward_machine.go:41-51 | after adding a state to any machine they agree exactly when every state satisfies the new predicate or enters a state of another name |
| RewardMachines.OverriddenInit | policies/reward_machine.go:41-51 | adding a state under the name of the first one keeps the agreement exactly when every state satisfies the new predicate or enters a later state |
| RewardMachines.OverriddenInitExample | policies/reward_machine.go:41-51 | a machine and an episode of one step on which they disagree after such an addition |
| RewardMachines.SegmentsSplit | policies/reward_machine.go:173-176 | the segments split the episode: each transition is in the one segment of the state it was taken in, in order |
| RewardMachines.SegmentsVisited | policies/reward_machine_util.go:54-59 | the states with a segment are exactly those the analyzer marks visited |
| RewardMachines.RewardMeansProgress | policies/reward_machine.go:153-159 | a transition is rewarded exactly when the position rises, and out of space exactly when it changes |
| RewardMachines.RewardMachinePolicy.constructor | policies/reward_machine.go:86-95 | starts in the first state with no segments |
| RewardMachines.RewardMachinePolicy.BeforeAction | policies/reward_machine.go:119-135 | at the first step the machine is set from the start state, otherwise left alone |
| RewardMachines.RewardMachinePolicy.Update | policies/reward_machine.go:138-183 | moves the machine and records the transition under the state it was taken in |
| RewardMachines.RewardMachinePolicy.UpdateIteration | policies/reward_machine.go:100-111 | hands every segment over once and starts afresh |
| RewardMachines.RewardMachinePolicy.FollowEpisode | types/agent.go:60-87 | after an episode the segments are those of its transitions |
| RewardMachines.AnalyzeTrace | policies/reward_machine_util.go:38-77 | the states visited, the final states seen and whether the final state was reached |
| RewardMachines.FinalSeenMeans | policies/reward_machine_util.go:71-76 | the final states counted are exactly the next states satisfying the final predicate |
| RewardMachines.ReachedMeans | policies/reward_machine_util.go:46-69 | an episode reaches the final state exactly when one of its states satisfies the final predicate |
| RewardMachines.FinalSeenOnce | policies/reward_machine_util.go:71-76 | for a one-time machine the states counted are the next states from the first that is final on |
| RewardMachines.VisitCountMeans | policies/reward_machine_util.go:78-83 | the visit count is the number of episodes that visit the state |
| RewardMachines.ReachCountMeans | policies/reward_machine_util.go:85-96 | the reach count is the number of episodes that reach the final state |
| RewardMachines.ReachBound | policies/reward_machine_util.go:85-96 | no more episodes reach the final state than there are from the first that does |
| RewardMachines.CountVisits | policies/reward_machine_util.go:78-83 | adds one to every visited state and to no other |
| RewardMachines.Analyze | policies/reward_machine_util.go:25-99 | visit counts, final states and first reaching episode are exact; the accuracy is 0 or in (0, 1] |
| RewardMachines.TrackAndAnalyze | policies/reward_machine_util.go:25-83 | on every episode of a total machine, the states recorded online are those found offline |

## Left out

- Stopping and restarting RSL nodes (rsl/env.go:143-159).
- Safety of RSL across configuration commands, and RSL liveness: repeats are not acknowledged again, so progress is not promised.
- State snapshots the RSL environment returns after each call (rsl/env.go:31-66), and RSL colors (rsl/env.go:276-364).
- Variants with a context and timeout, statistics, printing, JSON and recording to files.
- Collisions of message, state and action hashes.
- PartitionGrouping.Reorder: gives some permutation of the parts, not the order the comparison in types/partition_env.go:204-218 leads to.
- BonusPolicies.BonusPolicyGreedy.Update: uses real numbers, so floating-point rounding is not modelled.
- RewardMachines.RewardMachinePolicy.UpdateIteration: hands segments over without running the policy that receives them; the bonus policy's own update is proved separately.
- Softmax policies, the bonus policy that learns from rewards, random choice as a distribution, monitors and the property-guided policy itself.
- lpaxos, raft, cbft, ratis, redisraft, grids, plotting, the explorer, command line and notebooks.
