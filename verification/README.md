# The ByzzFuzz test harness, modelled and proved in Dafny

ByzzFuzz injects network faults and message corruptions into a Tendermint cluster. The
harness sits on every event of every replica: it numbers each replica's rounds, decides
which sends are dropped or corrupted, watches for disagreement, records what a later
analysis needs, and after a timeout lets the network heal. A campaign script generates
configurations and reruns the failing ones. This project models that harness and proves
what it guarantees over whole runs.

`dafny verify dfyconfig.toml` checks everything.

## How the model is organised

| file | content |
|---|---|
| `Decimal.dfy`, `Messages.dfy` | decimal printing and `Atoi`; events, messages, and what is read out of them |
| `VarKeys.dfy`, `Vars.dfy` | the string keys of the one flat variable store, and the separate typed maps it stands for |
| `RoundTracking.dfy` | numbering rounds across heights: closed form, order embedding, framing per replica |
| `Agreement.dfy` | the first-writer-wins commit monitor |
| `StepMonitor.dfy` | the online monitor of expected steps, for any guard |
| `SpecLog.dfy` | the event log and the script that analyses it |
| `OnlineOffline.dfy` | the two step checkers compared on one run |
| `Labels.dfy`, `Partitions.dfy` | node labels; network partitions |
| `Faults.dfy`, `Pipeline.dfy` | drops, corruptions, the filter list and what it amounts to; healing |
| `Runs.dfy`, `RunVerdicts.dfy` | whole runs with the timer firing anywhere; how runs end |
| `FaultEffects.dfy` | what the configured faults do to a run's messages, told by the events alone |
| `TestContext.dfy` | the harness as one mutable object with the string-keyed store, tied to all of the above |
| `Generator.dfy`, `Campaign.dfy` | random configurations and their consequences; the rerun campaign and its statistics |

The object in `TestContext.dfy` updates a `map<string, Value>` in place, as the program
does. `Vars.Represents` relates that store to a `State` of separate typed maps; because
no two keys share a string, every method can be specified on the typed state. The object
driven through any inputs is in the state of the specified run (`TestContext.Play`), so
the results about runs hold of it. The step monitor is not among the filters of such a
run; `TestContext.PlayMonitor` drives the object with the monitor alone.

## What is assumed of the libraries

netrix and tendermint-testing are not part of this model. Assumed of them: the state
machine takes its transition before the filters run, trying the conditions in the order
they were added, and stays in a state without transitions; filters run in order and the
first that handles an event wins; a send nobody handles is delivered; `And`
short-circuits; `If(c).Then(a)` handles exactly when `c` holds; a message made by
`NewMessage` keeps the sender and receiver of the one it replaces; a part condition asks
whether the replica is in the part of that label. `OnlineOffline` also asks that a
receive is reported by the replica the message is addressed to
(`OnlineOffline.Delivered`); `OnlineOffline.MisreportedVotes` is a run in which that fails
and the two checkers part. Signing and marshalling a rewritten message is an arbitrary
function that may fail, and so are the replicas' addresses and the two conditions under
which the library lets a test succeed (`Faults.Library`).

Random choices are arbitrary, or a parameter (`Generator.Draw`). A run is a sequence of
events from any replicas in any order, with the timer firing at any point
(`Runs.Input`). That replicas only move forward (`Runs.Harness.Forward`,
`RoundTracking.Monotone`) is a hypothesis wherever it is used; `EmbeddingIffForward`
shows that the numbering needs it.

## Where the code is not what it seems

* The guard of the online step monitor compares heights only: its second disjunct is
  implied by its first (byzzfuzz/spec/round.go:116). TODO.md:2 calls the checker broken.
  `StepMonitor.GuardsCompared` says exactly which steps it reports compared with the
  comparison its comment describes; `StepMonitor.WrittenGuardOverlooks` gives a run under
  the one fault the harness is always set up with. The monitor is not among the filters
  `ByzzFuzzInst` installs.
* The agreement monitor is a transition condition of the initial state, so it sees
  nothing once the test has succeeded; README.md:47-61 reads as if it always watched.
  `RunVerdicts.DiffCommitsExactly` is the exact statement,
  `RunVerdicts.DisagreementMissedExactly` says when a disagreement is missed, and
  `RunVerdicts.SuccessHidesDisagreement` gives a run.
* The any-scope script pairs proposal steps with a corruption that only changes votes
  (data.py:65-68). It alters exactly nothing but votes
  (`Generator.BlockChangeInertExactly`), and keeps later corruptions from the message
  (`Generator.IneffectiveCorruptionShadows`); `Generator.ShadowingLosesAnOmission` gives
  a proposal that is omitted without it and delivered with it.
* The online monitor asks for at least F + 1 senders, the analyser for more than F + 1.

## Model

| member | source | states |
|---|---|---|
| Decimal.ParsePrint | byzzfuzz/roundTracking.go:144-146 | decimal printing of integers loses nothing: parsing gives every integer back |
| Decimal.AtoiPrint | byzzfuzz/roundTracking.go:27-38 | a printed integer is read back exactly if it fits int64, and is an error otherwise |
| Decimal.ParseIntExactly | byzzfuzz/roundTracking.go:27-38 | what `Atoi` reads: digits with an optional sign and any leading zeros, each with its value, and nothing else |
| Messages.AnnouncedStepIsRead | byzzfuzz/roundTracking.go:16-38 | an announced height and round are read as such, exactly if both fit int64 |
| Messages.NewStepExactly | byzzfuzz/roundTracking.go:16-38 | a step is read exactly from a "newStep" event both of whose parameters are there and parse |
| Messages.AnnouncedCommitIsRead | byzzfuzz/spec/commit.go:13-25 | the same for a commit's height and block id |
| Messages.CommitExactly | byzzfuzz/spec/commit.go:13-25 | a commit is read exactly from a "Committing block" event with a height that parses and a block id |
| VarKeys.KeyStringInjective | byzzfuzz/roundTracking.go:132-146 | all key families are injective for any replica name and any integers, and pairwise disjoint, over the whole store |
| VarKeys.LastUnderscoreSplits | byzzfuzz/roundTracking.go:144-146 | why replica names with underscores do no harm: the numbers are found from the right |
| Vars.SetRepresents | byzzfuzz/roundTracking.go:71-74 | one write to the flat store changes one entry of the typed maps and no other |
| Vars.RepresentsDetermines | byzzfuzz/roundTracking.go:132-146 | a flat store stands for one typed state only |
| RoundTracking.ClosedForm | byzzfuzz/roundTracking.go:40-74 | for every forward history the incremental total is the number of rounds of all visited heights, by their last rounds |
| RoundTracking.PathIndependence | byzzfuzz/roundTracking.go:55-61 | histories with the same visited heights and last rounds have the same total, whatever was skipped or repeated |
| RoundTracking.IndexIsHistory | byzzfuzz/roundTracking.go:74 | totals are recorded for exactly the (height, round) pairs of the history |
| RoundTracking.IndexClosedForm | byzzfuzz/roundTracking.go:74 | each recorded total is the rounds of all lower heights plus its own round |
| RoundTracking.OrderEmbedding | byzzfuzz/roundTracking.go:55-74 | the recorded numbering is strictly increasing in lexicographic order, and so injective |
| RoundTracking.CurrentVersusRecorded | byzzfuzz/roundTracking.go:79-130 | a recorded total is at most the current one, with equality for the current (height, round) only |
| RoundTracking.RecordedIsStable | byzzfuzz/roundTracking.go:74 | a recorded total is never overwritten with another |
| RoundTracking.EmbeddingIffForward | byzzfuzz/roundTracking.go:55-61 | the numbering follows the order all through a history exactly when no step goes back |
| RoundTracking.CounterIsOwnHistory | byzzfuzz/roundTracking.go:40-74 | however replicas interleave, each counter depends on that replica's newSteps alone |
| Agreement.StoredIsFirst | byzzfuzz/spec/commit.go:25-29 | the stored block id of a height is that of its first commit; heights never committed have none |
| Agreement.FlaggedExactly | byzzfuzz/spec/commit.go:12-39 | the condition holds at an event exactly when it commits another block than the first commit of its height |
| Agreement.AlarmIffDisagreement | byzzfuzz/spec/commit.go:12-39 | over any run, the alarm is raised somewhere exactly when two commits of one height differ |
| StepMonitor.RemoveFirstRemoves | byzzfuzz/spec/round.go:72-84 | removal from the pending list takes out that step and keeps the list free of duplicates |
| StepMonitor.ReceivedIsSenders | byzzfuzz/spec/round.go:45-52 | the received map holds exactly the distinct senders of each (height, round), of messages of any type but for (1, 0), each once |
| StepMonitor.CurrentIsLatest | byzzfuzz/spec/round.go:180-181 | the stored current (height, round) is the replica's latest newStep |
| StepMonitor.PendingExactly | byzzfuzz/spec/round.go:86-193 | for any run and any guard: pending is duplicate-free and holds exactly the steps with a quorum receive let through and not made since |
| StepMonitor.PendingInMonotoneRun | byzzfuzz/spec/round.go:86-193 | in a forward run: pending is what a quorum was seen for and never stepped to anywhere in the run |
| StepMonitor.GuardsCompared | byzzfuzz/spec/round.go:110-119 | the guard as written reports a step exactly when the intended one does and a quorum receive came at a lower height; never at height 1 |
| StepMonitor.WrittenGuardOverlooks | byzzfuzz/spec/round.go:116 | a run under one fault on which the two guards differ: two prevotes for (1, 1) from two replicas |
| SpecLog.FindExpectedSteps | analyse.py:16-30 | the dictionary-of-sets loop returns exactly the pairs with three distinct senders or more |
| SpecLog.FindActualSteps | analyse.py:33-43 | the loop returns exactly the steps of the node |
| SpecLog.Analyse | analyse.py:61-80 | "All good." exactly when no node misses a step |
| SpecLog.OrderIsIrrelevant | analyse.py:16-43 | permuting the log changes no verdict |
| SpecLog.MissesStep | analyse.py:61-72 | a logged message takes away nothing a node misses and can add only its own (height, round) to the node it is for; a logged step removes only its own |
| SpecLog.MakesExactly | byzzfuzz/spec/log.go:58-85 | a node's logged steps are exactly its replica's newSteps |
| SpecLog.LogSendersExactly | byzzfuzz/spec/log.go:43-57 | a node has as many logged senders as there are replicas whose prevotes or precommits its replica received: labelling merges nobody |
| SpecLog.VerdictExactly | analyse.py:61-80 | logger and analyser together: "All good." exactly when every replica made every step for which it received prevotes or precommits from three replicas |
| RunVerdicts.RunLogVerdict | analyse.py:61-80 | the verdict on the log of any run of four replicas, whatever its faults: "All good." exactly when no replica lacks a step in what was processed before success |
| OnlineOffline.ExpectedOfflineIsReceivedOnline | byzzfuzz/spec/round.go:94-108 | every pair the analyser expects, (1, 0) apart, has three senders or more in the online map |
| OnlineOffline.MissingOfflinePendingOnline | byzzfuzz/spec/round.go:110-136 | a step missing offline is pending online exactly when the guard let a quorum receive through |
| OnlineOffline.MissingAheadIsPending | byzzfuzz/spec/round.go:116-136 | a missing step ahead of where the replica ended up is pending online, for any guard that keeps turning away what it turned away |
| OnlineOffline.MissingVersusPending | byzzfuzz/spec/round.go:116 | what that means for the guard as written and as intended, and that the former stays silent at height 1 |
| OnlineOffline.MisreportedVotes | byzzfuzz/spec/log.go:43-57 | why receives are asked to be the addressee's own: of votes reported by another replica the analyser hears and the online monitor does not |
| Labels.NodeLabelInjective | byzzfuzz/instance.go:145-147 | node labels and indices correspond one to one |
| Labels.LabelsCoherent | byzzfuzz/instance.go:190-202 | both label lookups return the label of the replica's index, under both labellings, despite the overlapping parts |
| Labels.NodeLabelNamesReplica | byzzfuzz/reference.go:95-120 | a node label names exactly the replica with that index, under both labellings |
| Labels.ExtraPartsName | byzzfuzz/reference.go:107-118 | the extra parts hold the first and the second replica, and nobody else |
| Labels.ReplicaIndex | byzzfuzz/partition.go:74-82 | the first position of the replica, and none exactly for a stranger |
| Partitions.Isolates | byzzfuzz/partition.go:55-62 | the scan holds exactly when no part contains both |
| Partitions.ConnectedIsEquivalence | byzzfuzz/partition.go:55-72 | under any number of proper partitions at once, who still reaches whom is an equivalence |
| Partitions.AllPartitionsPartition | byzzfuzz/partition.go:13-36 | every partition of the table is disjoint and covers the four nodes |
| Partitions.EveryPartitionListed | byzzfuzz/partition.go:13-36 | and the table is complete: whatever proper partition of four nodes keeps some apart, an entry keeps the same ones apart |
| Faults.StepBijection | byzzfuzz/instance.go:22-37 | steps correspond one to one to (round, type); only negative steps not divisible by three have no type |
| Faults.ToInt32 | byzzfuzz/corruption.go:111-111 | the truncating conversion of rounds: in range, and equal modulo 2^32 |
| Faults.VoteIsRewrittenFor | byzzfuzz/corruption.go:44-69 | a vote is rewritten for the first replica with its validator's address if there is one and the rewriting succeeds, and stays as it is otherwise |
| Faults.ActKeepsEndpoints | byzzfuzz/corruption.go:13-30 | no action redirects or multiplies a message |
| Faults.VoteActionsSpareOthers | byzzfuzz/corruption.go:223-243 | vote-changing actions are the identity on other messages, and panic only for an unusable seed |
| Faults.ToOneOfMeansListed | byzzfuzz/instance.go:166-172 | the disjunction built in the loop holds exactly for the listed replicas |
| Faults.DropConditionExactly | byzzfuzz/instance.go:112-121 | the conjunction of a drop filter holds exactly when the drop is aimed at the send, and panics exactly on an unparsed send before the timer |
| Faults.CorruptConditionExactly | byzzfuzz/instance.go:123-132 | the same for corruptions, from labels to replica indices |
| Pipeline.PipelineMeaning | byzzfuzz/instance.go:103-132 | for any drops, corruptions and event before success, the filter list tracks the event and then: any drop aimed at it drops it, else the first corruption aimed at it acts, else it passes |
| Pipeline.DescribesOneOutcome | byzzfuzz/instance.go:103-132 | that description leaves no choice |
| Pipeline.DropOrderIrrelevant | byzzfuzz/instance.go:112-121 | permuting the drops changes neither outcome nor state |
| Pipeline.AtMostOneMessage | byzzfuzz/instance.go:103-132 | at most one message comes out per event, with the same two ends |
| Pipeline.HealedDelivers | liveness/liveness.go:27-33 | with the flag set, every send the harness can label is delivered unchanged, whatever the configuration |
| Pipeline.TrackingUnaffected | liveness/liveness.go:16-25 | the flag changes nothing in what is tracked and logged |
| Pipeline.RaceIsHarmless | liveness/liveness.go:18-24 | wherever the timer fires while an event is being filtered, the event fares as before it or as after it |
| Runs.RunReflects | byzzfuzz/corruption.go:282-307 | after any run the rounds, block ids and log are those of the events processed before success, the block ids being the proposed ones in order |
| Runs.RunCounts | byzzfuzz/roundTracking.go:71-74 | in any run each replica's stored counter is the count of its own newSteps |
| Runs.RunKeepsRecorded | byzzfuzz/roundTracking.go:74 | over a whole run no recorded total changes |
| Runs.RoundConditionsCompared | byzzfuzz/roundTracking.go:79-130 | the two round conditions agree on current messages and never both hold of any other |
| Runs.OneCorruptionOneTarget | byzzfuzz/instance.go:123-132 | over a whole run one corruption touches, per sending replica, messages of one height, round and type only |
| Runs.OneDropOneRound | byzzfuzz/roundTracking.go:79-103 | over a whole forward run one drop acts, per sending replica, only while that replica is at one height and round, and on one type |
| Runs.SubstitutedIdWasProposed | byzzfuzz/corruption.go:223-243 | for any seed that is not negative the selection is in range and the id was proposed before; without proposals nothing changes |
| Runs.DroppedIffDisconnected | byzzfuzz/instance.go:112-121 | in any state, a drop is aimed at a send exactly when the partitions in force do not connect its ends |
| Runs.DeliveredIffConnected | byzzfuzz/instance.go:112-132 | in a run before the timer: a readable send does not come out when the partitions in force separate its ends, and comes out unchanged when they do not and no corruption is aimed at it |
| Runs.DropsLeaveAnEquivalence | byzzfuzz/partition.go:42-72 | drops on one round and type leave an equivalence on the replicas; distinct steps aim at most one partition |
| FaultEffects.DropAimedExactly | byzzfuzz/instance.go:112-121 | in a forward run a drop is aimed at exactly the sends of its type, across its partition, from replicas that have gone through as many rounds as its step says |
| FaultEffects.CorruptionAimedExactly | byzzfuzz/instance.go:123-132 | a corruption is aimed at exactly the messages of its type from its node to a target that belong to the round its step says, whenever they are sent |
| FaultEffects.BlockIdsGrow | byzzfuzz/corruption.go:282-307 | how the stored block ids grow: a send or receive of a proposal puts its id at the end, nothing else changes the list |
| FaultEffects.ProposalOrNothing | byzzfuzz/corruption.go:129-170 | what comes out of a run for corruption types 0 and 3: the proposal rewritten to nil in the sender's name, and nothing |
| FaultEffects.VoteChanged | byzzfuzz/corruption.go:32-221 | for types 1, 2 and 4: the vote rewritten, by the replica with its validator address, to nil, to two rounds later, to the round of the seed, as 32-bit numbers |
| FaultEffects.BlockChanged | byzzfuzz/corruption.go:223-280 | for type 5: the vote rewritten to the stored block id at position seed modulo their number; unchanged before any proposal; a panic exactly for a negative index |
| FaultEffects.PanicsExactly | byzzfuzz/instance.go:103-132 | when an event before success makes the harness panic: it names a stranger, or is an illegible send before the timer while there is a fault, or meets a negative index |
| RunVerdicts.RunTotal | byzzfuzz/roundTracking.go:40-74 | the stored total of a run in closed form |
| RunVerdicts.SameHeightsSameTotal | byzzfuzz/roundTracking.go:40-74 | replicas of any two runs with the same heights and last rounds have the same total |
| RunVerdicts.HealedRunDelivers | liveness/liveness.go:16-33 | in any run in which the timer has fired, every later send before success is delivered unchanged |
| RunVerdicts.TimerLeavesNoTrace | liveness/liveness.go:16-25 | until success a run with the timer and the same run without it differ in nothing but the flag |
| RunVerdicts.InitExactly | byzzfuzz/instance.go:97-101 | a run is in its initial state exactly while it has neither disagreed nor succeeded |
| RunVerdicts.DiffCommitsExactly | byzzfuzz/instance.go:97-101 | a run ends as "diff-commits" exactly when two commits of a height differed before the test succeeded |
| RunVerdicts.DisagreementMissedExactly | byzzfuzz/instance.go:97-101 | a run in which replicas disagree ends in success exactly when the test succeeded before the disagreement showed |
| RunVerdicts.SuccessHidesDisagreement | byzzfuzz/instance.go:97-101 | such a run: height 3 is reached, then two replicas commit different blocks at height 1 |
| TestContext.NodeSet.Add | byzzfuzz/spec/round.go:28-39 | the scan adds a node once |
| TestContext.RoundsReceived.Update | byzzfuzz/spec/round.go:45-52 | the update adds the sender to that (height, round) |
| TestContext.ExpectedSteps.Add | byzzfuzz/spec/round.go:58-70 | the scan adds a step once |
| TestContext.ExpectedSteps.Remove | byzzfuzz/spec/round.go:72-84 | the splice removes the first occurrence |
| TestContext.BuildFilters | byzzfuzz/instance.go:103-132 | the loops build the filters of the configuration, or panic exactly on a step or type that is none |
| TestContext.Context.constructor | byzzfuzz/instance.go:134-137 | the store after setup is the start of every run |
| TestContext.Context.LabelNodes | byzzfuzz/instance.go:149-164 | the filled array is the labelling of the replicas |
| TestContext.Context.LabelNodesExpectNewRound | byzzfuzz/reference.go:95-125 | the same with the two overlapping parts |
| TestContext.Context.GetPartLabel | byzzfuzz/spec/round.go:212-224 | the loop finds the first part with the replica |
| TestContext.Context.GetNodeLabel | byzzfuzz/instance.go:190-202 | the loop finds the first such part with a node label |
| TestContext.Context.FireTimer | liveness/liveness.go:16-25 | only the flag changes |
| TestContext.Context.TrackTotalRounds | byzzfuzz/roundTracking.go:14-77 | the four variables written make one step of that replica's counter |
| TestContext.Context.RecordBlockIds | byzzfuzz/corruption.go:282-307 | the event's proposed id is appended |
| TestContext.Context.CommitsDiffer | byzzfuzz/spec/commit.go:12-39 | verdict and side effect of the commit condition |
| TestContext.Context.Log | byzzfuzz/spec/log.go:38-85 | exactly the logged events go to the channel, or it panics on a stranger |
| TestContext.Context.TrackRoundsReceived | byzzfuzz/spec/round.go:86-139 | one receive, as the step monitor specifies it |
| TestContext.Context.TrackCurrentHeightRound | byzzfuzz/spec/round.go:149-193 | one event, as the step monitor specifies it with the guard as written |
| TestContext.Context.IsMessageFromTotalRound | byzzfuzz/roundTracking.go:79-103 | the round condition of drops |
| TestContext.Context.IsMessageOfTotalRound | byzzfuzz/roundTracking.go:105-130 | the round condition of corruptions |
| TestContext.Context.IsMessageToOneOf | byzzfuzz/instance.go:166-172 | the loop computes the disjunction over the targets |
| TestContext.Context.FindSigner | byzzfuzz/corruption.go:48-58 | the search loop finds the first replica with the address, skipping unreadable ones |
| TestContext.Context.Action | byzzfuzz/corruption.go:13-30 | the dispatch, each action with its failure paths |
| TestContext.Context.HandleEvent | byzzfuzz/instance.go:97-132 | one event: transition, then filters until one handles it |
| TestContext.Play | byzzfuzz/instance.go:90-138 | the mutable object driven through any inputs has the state of the specified run, and each event the outcome the filters give it there |
| TestContext.PlayMonitor | byzzfuzz/spec/round.go:86-193 | the mutable object driven through any events by the step monitor: its store is that of the specified run, and its pending lists are exactly the steps owed |
| Generator.Perm | byzzfuzz/byzzfuzz.go:90-90 | the shuffle yields a permutation |
| Generator.RandomNonEmptySubset | byzzfuzz/byzzfuzz.go:113-117 | increasing, nonempty, and never all nodes |
| Generator.RandomCorruption | byzzfuzz/byzzfuzz.go:119-130 | the type of corruption fits the step; it panics exactly on a step that has no message type |
| Generator.FittingKindsExactly | byzzfuzz/byzzfuzz.go:119-130 | the table drawn from holds every type of corruption that fits the step, and no other |
| Generator.ByzzFuzzRandom | byzzfuzz/byzzfuzz.go:81-111 | for every random stream: distinct drop steps in range, one Byzantine sender, fitting types and targets; it panics exactly on the stated arguments |
| Generator.RandomConfigCorruptions | orchestrate.py:45-75 | for any draws: one faulty node, and for every corruption a step below 10, a nonempty set of nodes, a seed up to 10000, and a type its scope has for that type of message |
| Generator.KindsExactly | orchestrate.py:51-63 | the types drawn from: small scope, proposals to nil or omitted, votes to nil, to another round or omitted; any scope, proposals given another block id or omitted, votes another round or omitted |
| Generator.EveryPossible | orchestrate.py:45-76 | every such list of corruptions is what some draws give |
| Generator.AtMostOneDropMatches | byzzfuzz/byzzfuzz.go:89-96 | of a generated configuration at most one drop is aimed at any send |
| Generator.OnlyOneSenderCorrupted | byzzfuzz/byzzfuzz.go:98-108 | in every run of one, corruptions touch only the Byzantine node's messages to their targets, and only unreadable sends are fatal |
| Generator.IneffectiveCorruptionShadows | data.py:65-68 | the any-scope proposal corruption delivers the message unchanged and shadows all later ones |
| Generator.BlockChangeInertExactly | byzzfuzz/corruption.go:223-243 | the any-scope block change leaves the messages of a type alone, under every library, state and seed, exactly when the type is no vote |
| Generator.ShadowingLosesAnOmission | data.py:65-68 | an omission that acts when it stands alone and is lost behind the any-scope corruption of the same step |
| Campaign.Results.InsertRun | orchestrate.py:128-138 | the new row has one run and the table stays sound |
| Campaign.Results.DeflakeOne | orchestrate.py:157-175 | one eligible row gets one more run, whichever is picked and however it ends; nothing happens exactly when none is eligible |
| Campaign.Results.InsertConfigs | orchestrate.py:207-214 | 1600 fresh rows, 200 in each group |
| Campaign.Results.Reproduce | orchestrate.py:187-228 | ends under any outcomes with no row eligible; settled rows untouched, group sizes kept, runs accounted for, at most five a row; every group's statistics add up |
| Campaign.Results.RerunAll | orchestrate.py:221-226 | the rerun loop ends with no row eligible, settled rows untouched and every run accounted for |
| Campaign.RerunCounts | orchestrate.py:170-174 | each rerun is one run more and brings the end nearer |
| Campaign.StatsConserve | queries/stats.sql:5-10 | in any sound table each group is its reliable failures, passes and pending rows, and its failures likewise |
| Campaign.StatsExactly | queries/stats.sql:5-10 | the statistics of a group as numbers of its rows: all, with a failure, with two, with five, with a pass, with both |
| Campaign.StatsAddUpIffSettled | queries/stats.sql:5-10 | a group's statistics add up exactly when nothing in it is left to rerun |

## Left out

- Tendermint, netrix and tendermint-testing themselves, Docker, processes, signals, SQLite and HTTP: a run's pass or fail is an arbitrary outcome.
- Event names and parameters: the two names that are read are constructors of their own, and of the parameters only the three that are read are kept.
- Signing, marshalling and message bytes; the bit flipping of byzzfuzz/baseline.go.
- JSON encoding of the log and of configurations, log files, the channel's capacity, and the diagrams and ad hoc reports.
- The log lines inside the corruption actions, with their lookup of the label of the event's own replica.
- The 64-bit width of the running totals: heights and rounds are read within int64 as `Atoi` does, sums of them are unbounded.
- Running several filters for different events at once: one event is handled at a time, only the timer runs beside it.
- The drops of `random_config` in orchestrate.py: a sorted sample of distinct table entries, several of which may share a step; the results about drops hold for any list, and for any order of it.
- The text of a configuration in the results table: a row keeps its numbers of drops and corruptions, which the statistics group by.
- The endless loops of `fuzz`, `deflake` and `fuzz_deflake`: each of their operations is modelled and keeps every row sound.
- `check_ok` in orchestrate.py, which fails on a log without a verdict line.
- The state machine and filters of `ExpectNewRound` in byzzfuzz/reference.go, beyond its labelling: they are library conditions throughout.
- Wall-clock time: the timer is a step at an arbitrary point.
