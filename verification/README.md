# Conductor, modelled and proved in Dafny

Conductor is a Go runtime and static checker for ROS 2 applications. Under its networked parts lie self-contained
algorithms and state machines, each of which makes a claim that its code decides. This project models them and
proves those claims.

- `Isometry`, `FrameTree`, `FrameLookup`: the declared transform tree. Poses form a group of rigid motions over the
  reals; the structural check accepts exactly rooted trees; a breadth-first lookup answers with the pose by way of the
  root, whatever the links that move are doing. `FrameCoordinates` says what that does to points, in coordinates.
- `Cdr`, `CdrProofs`, `CdrLayout`, `CdrCodec`: the CDR codec (PLAIN_CDR, little-endian, section 7.4.1.1 of
  DDS-XTypes 1.3). A value comes back from the wire exactly under a condition on it, at every nesting and offset.
- `Mission`, `MissionProofs`, `MissionRuns`, `MachineGraph`: the mission machine with retry, fail and Goto, what its
  runs do in terms of step tags, and the static analysis of the same machine, which is sound for every run.
- `Dependencies`, `Bringup`, `GraphBringup`, `BringupAgreement`, `BringupQueue`: the two bring-up orders over one
  dependency relation: one layered, one lexicographically least, with the same cycles, and exactly when they agree.
  `AppRun` drives the nodes by the result.
- `Lifecycle`, `LifecycleClient`: a managed node under any number of concurrent callers, and bringing up other nodes
  over service calls that may fail, take effect unheard, or arrive after their callers gave up.
- `Action`, `Bus`, `BusOrder`, `BusDurability`: an action server and the in-process bus as atomic steps, interleaved
  arbitrarily, the exact conditions under which the bus delivers in order, and what a late subscriber is handed.
- `Clock`: the simulated clock, where each waiter fires exactly when its own history of set times says so.
- `FleetTraces`: the bounded span store and the stitching of a trace.
- `MsgGen`, `TypeHash`: the transitive closure of a type's references and the text its hash is taken of.
- `Keyexprs`, `DDSNames`, `Attachments`: liveliness tokens, type names and message attachments of rmw_zenoh, with the
  exact conditions under which each parser undoes its printer. `Texts`, `Decimals`, `Wrappers` hold the Go library
  functions and the sorting and counting facts that the others share.
- `Samples`: what goes over the wire, letter by letter and byte by byte, most of it as the repository's tests have it.

Code that changes state in steps is a class or a method with loops. Where the source holds a lock, one critical section
is one method, and it is proved to be one step of a pure function on the state; statements about all runs and all
interleavings are then lemmas about sequences of such steps. Nondeterminism (hooks, handlers, the network, the order of
map iteration, callers that interleave) is left open: results hold for every outcome.

Where documentation and code differ, the code was followed:

- bus.go 91-92 says a subscriber sees history first and then live messages. However callers hand out, that holds if and
  only if nothing is published on the subscriber's topic while history is still being handed to it
  (`BusOrder.HistoryFirst`; `BusOrder.LiveMayComeFirst` is a run where it fails). All that it is owed comes in order if
  and only if nothing is published on its topic while anything is on its way to it (`BusOrder.OrderKept`). Exactly-once
  delivery holds always.
- lifecycle_client.go 234-236 says BringUp is safe to retry without tripping over the nodes that already came up. No
  node is configured or activated twice and none too early (`LifecycleClient.Lifecycle.RetryBringUp`); but a request of an
  earlier attempt that is still on its way can make the next one trip (`LifecycleClient.ConfiguredTwice`), exactly when
  it is of the same transition (`LifecycleClient.PassStaysValid`).
- cdr/cdr.go: durations that are negative and not whole seconds, seconds outside 32 bits and a time of exactly the
  Unix epoch (this one on purpose, lines 231-235) do not come back. The condition is exact (`Cdr.MarshalRoundTrip`,
  `Cdr.RegularRoundTrip`), and what comes back instead is stated by `Cdr.NegativeDuration`, `Cdr.DurationPast32Bits`,
  `Cdr.TimePast32Bits` and `Cdr.EpochBack`.
- internal/graph/graph.go 374 calls its bring-up order the mirror of the runtime's. Their cycles are the same list
  (`BringupAgreement.SameCycles`), and the orders are the same if and only if the runtime's queue never takes a node
  while one that is declared earlier lacks nothing any more (`BringupAgreement.OrdersAgree`), or, said of the static
  order alone, if and only if that never takes a node before one that became ready earlier
  (`BringupQueue.OrdersAgreeStatically`). Where providers are declared first, that is a matter of declaration positions
  (`BringupQueue.OrdersAgreeByPosition`). With a, b, c declared and b consuming what a offers they differ
  (`BringupAgreement.RuntimeTakesC`, `BringupAgreement.LeastTakesB`).

## Model

| member | source | states |
|---|---|---|
| `Isometries.QuatMulAssoc` | frames.go:412-421 | quaternion multiplication is associative |
| `Isometries.QuatMulNorm` | frames.go:412-421 | the norm of a product is the product of the norms, so rotations stay rotations |
| `Isometries.RotateIsSandwich` | frames.go:425-433 | the rotation by two cross products is the textbook q v q*, for every unit q |
| `Isometries.RotateMul` | frames.go:412-433 | rotating by a product of unit quaternions is rotating by one after the other, and the product is unit |
| `Isometries.RotateConj` | frames.go:423-433 | the conjugate rotates back, on both sides |
| `Isometries.RotateKeepsDot` | frames.go:425-433 | rotation preserves dot products, hence lengths and angles |
| `Isometries.ThenApply` | frames.go:369-386 | a.Then(b) moves a point by b first and then by a |
| `Isometries.ThenAssoc` | frames.go:369-374 | composition of isometries is associative |
| `Isometries.ThenInverse` | frames.go:369-381 | Inverse is a two-sided inverse of Then, and is rigid again |
| `Isometries.InverseThen` | frames.go:369-381 | the inverse of a composition is the composition of the inverses the other way round |
| `Isometries.ApplyInverse` | frames.go:377-386 | applying an isometry and its inverse gives every point back |
| `Isometries.QuatFromRPYUnit` | frames.go:400-410 | every roll-pitch-yaw gives a unit quaternion, where cosine and sine squared sum to one |
| `Isometries.RPYIsYawPitchRoll` | frames.go:400-410 | roll-pitch-yaw is rotation about x, then y, then z, in that order |
| `FrameTrees.FramesOf` | frames.go:157-173 | the frames named by any link, sorted, each once |
| `FrameTrees.RootsOf` | frames.go:189-204 | exactly the frames that are no child, sorted, each once |
| `FrameTrees.CycleThrough` | frames.go:242-262 | following parents ends, and finds a cycle exactly if the frame is on one, though the way up may run into another cycle |
| `FrameTrees.ByChild` | frames.go:221-224 | the links of each child, in declaration order |
| `FrameTrees.ParentFaults` | frames.go:225-240 | one fault for exactly the frames with several parents, with those parents, sorted by frame |
| `FrameTrees.CycleFaults` | frames.go:242-262 | one fault for exactly the frames on a cycle, sorted by frame |
| `FrameTrees.Check` | frames.go:215-270 | the parent faults, the cycle faults, each sorted and each once, and last one fault naming the roots if there are several; nothing exactly if the links form one rooted tree |
| `FrameTrees.ReportUnique` | frames.go:215-270 | what Check must report of a declaration is one list, to the order and the last fault |
| `FrameTrees.CheckAcceptsTrees` | frames.go:215-270 | no fault holds if and only if some frame is the root from which all links form a tree |
| `FrameTrees.TreeRootUnique` | frames.go:189-204 | a rooted tree has one root, the frame Roots gives |
| `FrameTrees.TreeFrameCount` | frames.go:157-204 | a rooted tree has exactly one frame more than links |
| `FrameTrees.ClimbsToRoot` | frames.go:242-262 | off all cycles, going up by parents reaches a frame without one |
| `FrameLookup.BreadthFirst` | frames.go:280-327 | the queue loop finds a shortest, simple walk with each link turned the right way, or shows there is none |
| `FrameLookup.Path` | frames.go:280-327 | a shortest walk between declared frames exactly when some walk joins them, else NotConnected; without a tree or with an unknown frame that error, the target looked at first |
| `FrameLookup.ShortWalksSeen` | frames.go:280-327 | while waiting frames are at least d away, all frames within d links have been seen at their distance |
| `FrameLookup.Connects` | frames.go:355-359 | true exactly for declared frames that some walk joins |
| `FrameLookup.Compose` | frames.go:338-351 | the product of a walk's links, inverted when walked backwards; the first dynamic link stops it and is named |
| `FrameLookup.Lookup` | frames.go:333-353 | the path, then its product; every error branch of the source and no other, the first dynamic link of the path being named (what the product does to points: `FrameCoordinates.LookupCarries`) |
| `FrameLookup.Telescope` | frames.go:333-353 | along any walk of a rooted tree, whatever its detours, the product is inverse(root pose of the start) composed with root pose of the end |
| `FrameLookup.LookupIsRelative` | frames.go:333-353 | a successful lookup on a rooted tree is the pose by way of the root, for every pose the dynamic links may have at the moment |
| `FrameLookup.StaticRoute` | frames.go:280-353 | if any walk between two frames of a tree is static, the one the search finds is |
| `FrameLookup.LookupSucceeds` | frames.go:333-353 | between declared frames of a tree a lookup succeeds if and only if static links alone join them |
| `FrameCoordinates.PoseTurns` | frames.go:79-82 | the pose a link declares turns every point about x by roll, then about y by pitch, then about z by yaw, and shifts it, said in coordinates |
| `FrameCoordinates.LookupCarries` | frames.go:333-353 | on any declaration: wherever one point has coordinates in all frames as the static links declare them, a successful lookup takes those in the source frame to those in the target frame |
| `FrameCoordinates.PointEverywhere` | frames.go:333-386 | on a rooted tree such coordinates exist for every point of every frame |
| `FrameCoordinates.LookupMovesPoints` | frames.go:333-353 | so there a successful lookup is the one motion of points that the declaration gives |
| `FrameCoordinates.LinkAnswered` | frames.go:333-353 | the lookup over one static link of a tree succeeds, and turns and shifts points by its roll, pitch, yaw and offset |
| `FrameLookup.LookupChains` | frames.go:333-353 | Lookup(a,b).Then(Lookup(b,c)) is what Lookup(a,c) answers, and it does answer |
| `FrameLookup.LookupReverses` | frames.go:333-381 | Lookup(b,a) answers with Lookup(a,b).Inverse() |
| `FrameLookup.TreeConnects` | frames.go:215-270 | any two frames of a tree that Check accepts are connected |
| `FrameLookup.DeclaredMoment` | frames.go:80-82 | the declared poses are one moment that the lookup theorem speaks of |
| `Cdr.Encoder.Align` | cdr/cdr.go:69-73 | pads with zeros to the next multiple of the width |
| `Cdr.Encoder.Value` | cdr/cdr.go:90-167 | appends the encoding of any value of any schema at the current offset, or reports the unsupported type |
| `Cdr.Decoder.AlignAndNeed` | cdr/cdr.go:174-182 | steps to the next multiple and says whether n bytes follow |
| `Cdr.Decoder.Value` | cdr/cdr.go:220-370 | reads the value at the current offset or reports the error, as the specification of decoding does, and stays within the buffer; the offset never moves back, read or not |
| `CdrSpec.Decode` | cdr/cdr.go:174-370 | on any bytes whatever decoding ends, its offset only grows and stays within the buffer |
| `Cdr.Marshal` | cdr/cdr.go:33-47 | encapsulation header, body and pad for encodable values, an error for all others |
| `Cdr.Unmarshal` | cdr/cdr.go:50-63 | the value in a payload, or the error of a short payload, an encapsulation or a body that is none |
| `Cdr.PayloadLength` | cdr/cdr.go:33-47 | the payload is a multiple of four bytes |
| `Cdr.PayloadShape` | cdr/cdr.go:33-47 | the bytes 0, 1, 0, 0, then the body, then as few zeros as make the body a multiple of four |
| `Samples.StampBytes` | cdr/cdr.go:92-101 | a time is its seconds and then its nanoseconds, low byte first |
| `Samples.DurationBytes` | cdr/cdr.go:102-106 | a duration is its whole seconds and then the nanoseconds past them |
| `Samples.TextBytes` | cdr/cdr.go:135-139 | a string is its length with the final zero, its bytes and the zero |
| `Samples.SequenceBytes` | cdr/cdr.go:140-146 | a sequence is the number of its elements and then the elements |
| `Samples.BoolTrue` | cdr/cdr_test.go:22-24 | the sample of a bool that Fast CDR wrote |
| `CdrProofs.RoundTrip` | cdr/cdr.go:90-370 | at every offset in every buffer, decoding gives back the encoded value and stops where the encoder stopped, if and only if the value is faithful |
| `CdrProofs.StringRoundTrip` | cdr/cdr.go:135-139 | a string comes back exactly if its length with the final zero fits 32 bits, whatever zeros are in it |
| `CdrProofs.SliceRoundTrip` | cdr/cdr.go:140-146 | a sequence comes back exactly if its count fits, is not larger than the bytes after it and its elements come back |
| `CdrProofs.TimeSurvives` | cdr/cdr.go:92-101 | which times the two 32-bit fields can hold |
| `CdrProofs.DurationSurvives` | cdr/cdr.go:102-106 | which durations come back: whole seconds or non-negative, within 32 bits of seconds |
| `Cdr.DurationBack` | cdr/cdr.go:102-106 | whatever the duration, what comes back is its two halves, each cut to 32 bits |
| `Cdr.TimeBack` | cdr/cdr.go:92-101 | whatever the time, what comes back is its seconds cut to 32 bits and its nanoseconds, or the zero time |
| `Cdr.NegativeDuration` | cdr/cdr.go:102-106 | a negative duration that is not whole seconds is not representable, and comes back later by exactly 2^32 nanoseconds |
| `Cdr.MinusOneNanosecond` | cdr/cdr.go:102-106 | a duration of -1 comes back as 4294967295 |
| `Cdr.DurationPast32Bits` | cdr/cdr.go:102-106 | 2^31 seconds come back as -2^31 seconds |
| `Cdr.TimePast32Bits` | cdr/cdr.go:92-101 | times in the second 2^31 come back in the second -2^31 |
| `Cdr.EpochBack` | cdr/cdr.go:229-241 | the Unix epoch comes back as the zero time |
| `Cdr.MarshalRoundTrip` | cdr/cdr.go:33-63 | Unmarshal(Marshal(v)) is v if and only if v is faithful, for every schema and value |
| `Cdr.RegularRoundTrip` | cdr/cdr.go:33-63 | over schemas whose sequence elements take a byte at least, that is a condition on the leaves alone |
| `CdrLayout.RegularFaithful` | cdr/cdr.go:90-370 | over such schemas a value survives wherever it stands, exactly if its leaves are representable |
| `CdrLayout.EncodeIsLayout` | cdr/cdr.go:65-167 | nesting adds no bytes: an encoding is the flat layout of its primitives from the same offset |
| `CdrLayout.LayoutAligned` | cdr/cdr.go:69-88 | every primitive stands at a multiple of its size, as its own little-endian bytes |
| `Missions.Table` | mission.go:366-373 | the step table, refused exactly when a step name comes twice, with the first that does |
| `Missions.FindBadTarget` | mission.go:380-389 | the first step's next or fail target that is neither a step nor terminal, next before fail, found exactly if there is one |
| `Missions.WireMission` | mission.go:357-399 | accepts exactly the well-wired declarations, and gives their machine; a refusal names the one error the source's checks come to first |
| `Missions.MissionRunner.Begin` | mission.go:403-418 | starting does nothing while a run is in progress |
| `Missions.MissionRunner.CancelRun` | mission.go:423-440 | canceling reaches the run's context, whatever state it is in |
| `Missions.MissionRunner.LoopHead` | mission.go:447-466 | one pass through the head of the run loop: terminal steps end it, cancellation ends it, otherwise a handler is entered |
| `Missions.MissionRunner.HandlerDone` | mission.go:467-500 | one pass through the switch on a handler's outcome: Goto, next, retry with backoff, fail, in the source's order (where each leads: `MissionRuns.CallsFollow`) |
| `Missions.MissionRunner.BackoffDone` | mission.go:483-491 | after a backoff the same step is entered again, unless canceled |
| `Missions.MissionRunner.Drive` | mission.go:442-502 | any sequence of events takes the runner through the same states as the pure machine |
| `MissionProofs.WiredIsSound` | mission.go:357-399 | a wired mission has only targets that are steps or terminal |
| `MissionProofs.StepKeepsInv` | mission.go:442-502 | every event keeps the history a walk of the machine, with its verdict decided once |
| `MissionProofs.EveryRunIsAWalk` | mission.go:442-502 | whatever handlers do: each call follows the one before it, attempts count from 1 to at most retry+1, and the run finishes at most once, with the status its last step gives (which call follows which: `MissionRuns.CallsFollow`) |
| `MissionRuns.CallsFollow` | mission.go:442-500 | in every run the first call is of the start; after a success comes the first attempt of next, after a failure the next attempt of the same step while it has retries left and then the first attempt of fail with that error, after a Goto its target |
| `MissionRuns.GoesWhereLed` | mission.go:442-500 | and so does the run go on after its last call |
| `MissionRuns.StepsAsTagged` | mission.go:193-227 | the step a wired machine has for tags: next as tagged or done, fail, retry and backoff as tagged |
| `MissionRuns.CallsFollowTags` | mission.go:193-500 | so each call of a run of an accepted declaration is where the tags lead from the call before it |
| `MissionRuns.SleepsBeforeRetry` | mission.go:480-489 | a failed attempt with retries left is followed by a backoff where the step has one, and then by the next attempt |
| `MissionRuns.HowRunsEnd` | mission.go:442-500 | a run that returned was canceled, or its last call says how: at done, at failed with the error of the last fail branch, with the step's error when it had no retry and no fail branch left, or with the Goto whose target is nowhere |
| `MissionRuns.CompletedIff` | mission.go:453-500 | it completed if and only if its last call leads to done |
| `MissionProofs.NeverLost` | mission.go:442-466 | the head of the loop always finds a declared or terminal step, so a run fails by a step's own error or a Goto to nowhere only |
| `MissionProofs.CanceledEntersNothing` | mission.go:442-502 | after cancellation no further handler is entered until the mission is started again after its run has ended; a start while the run is in progress changes nothing |
| `MissionProofs.ReturnedIsFinal` | mission.go:580-605 | a finished run's verdict never changes, but by a new start |
| `MissionProofs.WalkVisits` | mission.go:442-502 | a run is no longer than the attempts its visits allow, one visit after another along the declared edges |
| `MissionProofs.AcyclicRunsEnd` | mission.go:442-502 | if next, fail and the Gotos performed form no loop, a run makes at most the sum of retry+1 handler calls |
| `MissionProofs.WalkCosts` | mission.go:442-502 | a run's calls, returns and sleeps are no more than the attempts of its visits allow |
| `MissionProofs.AcyclicRunsAreShort` | mission.go:442-502 | such a run changes no more often than its steps' attempts allow (a call, a return, and a sleep before each retry that has a backoff), and once for a cancellation and once for the return |
| `MissionProofs.ShortByAllowance` | mission.go:442-502 | so it has at most three changes for each of the calls that retry+1 allows, and one; with more than three for each it has returned |
| `MissionProofs.AcyclicRunsReturn` | mission.go:442-502 | and it ends: kept busy for more events than that, a cancellation included, it has returned, whatever handlers do and whenever it is canceled |
| `MissionProofs.MissionsEnd` | mission.go:442-502 | left to itself, an acyclic mission has returned after one event more than its steps' attempts allow, for every sequence of handler outcomes |
| `MissionProofs.StraightMissionsEnd` | mission.go:442-502 | in particular any mission without Gotos whose next and fail tags have no loop, for every sequence of successes and failures |
| `MissionProofs.BoundAttained` | mission.go:442-502 | a run that fails once, sleeps, succeeds and is canceled at the last moment takes exactly as many events as the bound allows |
| `MissionProofs.GoesOn` | mission.go:442-502 | a run that has not ended is never stuck: entering, returning or waking always changes it |
| `MachineGraph.Targets` | internal/graph/mission.go:41-50 | next, fail and the Goto targets in this order, each once, where it stands first |
| `MachineGraph.Graph.Walk` | internal/graph/mission.go:103-122 | marks what can be reached from a step without passing what was seen before; ends on cyclic machines |
| `MachineGraph.Graph.MarkReachable` | internal/graph/mission.go:103-122 | marks exactly the steps that some path of targets leads to from the start |
| `MachineGraph.EntersOnlyReachable` | internal/graph/mission.go:92-122 | if handlers perform only listed Gotos, every step a run enters is marked |
| `MachineGraph.StaticSoundness` | internal/graph/mission.go:125-210 | if handlers perform only Gotos the analysis lists, all of them declared, every step any run enters is reachable from the start, and no run fails for want of a step |
| `MachineGraph.GotoTargets` | internal/graph/mission.go:89-100 | the targets of the literal Gotos written in a step's own handler, each once |
| `MachineGraph.Resolve` | internal/graph/mission.go:53-85 | one node's machine: its steps as their tags and handlers say, an absent next meaning done, marked from the start |
| `MachineGraph.WiredMirrors` | internal/graph/mission.go:60-83 | the machine that the runtime wires and the one that the analysis resolves from the same fields have the same steps and targets |
| `MachineGraph.DeclarationSound` | internal/graph/mission.go:53-210 | for a declaration that the runtime accepts and whose written Gotos are declared: if handlers perform only those, every step any run enters is marked, and no run fails for want of a step |
| `Bringup.Providers` | bringup.go:48-58 | for each endpoint exactly the nodes that offer it |
| `Bringup.EdgesOf` | bringup.go:67-81 | every provider of every consumed endpoint, not the node itself, with the right count |
| `Bringup.Edges` | bringup.go:60-81 | the dependency relation of the recorded endpoints, with its counts |
| `Bringup.BringupOrder` | bringup.go:47-124 | acyclic nodes in topological order, then cycles as declared; the order is a function of the relation alone, whatever order maps are iterated in; longest dependency chains never decrease along it |
| `Bringup.LeveledIsLayered` | bringup.go:83-123 | first in, first out gives layers: dependency depth never decreases along the order |
| `Dependencies.Release` | bringup.go:103-114 | decrementing indegrees unlocks exactly the nodes that lacked only this one, in declaration order |
| `Dependencies.AppendCycles` | bringup.go:117-123 | what the loop never reached is exactly the nodes with a path into a cycle, in declaration order |
| `Dependencies.OrderedIsAcyclic` | bringup.go:83-123 | nothing in a topological order is on or behind a cycle |
| `Dependencies.StuckIsCyclic` | bringup.go:117-123 | nodes that all wait for each other lie on or behind cycles |
| `Dependencies.LeftoversAreCyclic` | bringup.go:117-123 | with nothing ready, a node was not ordered if and only if it has a path into a cycle |
| `GraphBringup.DependenciesOf` | internal/graph/graph.go:443-500 | exactly the application's own providers of what a node consumes, topics, services and actions alike, not itself |
| `GraphBringup.BringupOrder` | internal/graph/graph.go:378-424 | the lexicographically least topological order of the acyclic nodes by declaration, then the cycles as declared |
| `GraphBringup.GreedyIsLeast` | internal/graph/graph.go:401-416 | always taking the first declared ready node gives the least order |
| `Dependencies.CycleNodesMember` | bringup.go:117-123 | the cycles list holds exactly the nodes with a dependency path into a cycle |
| `BringupAgreement.SameCycles` | internal/graph/graph.go:378-424 | both algorithms return the same cycles list and order the same acyclic nodes |
| `BringupAgreement.SameRelation` | internal/graph/graph.go:443-500 | what the runtime records of a graph's nodes amounts to the relation that the graph declares, so the two algorithms run on one relation |
| `BringupAgreement.LeastUnique` | internal/graph/graph.go:401-416 | two lexicographically least topological orders of the same nodes are the same |
| `BringupAgreement.LeastPassesNobody` | internal/graph/graph.go:401-416 | a least order never takes a node while an earlier declared one lacks nothing any more |
| `BringupAgreement.PassesNobodyIsLeast` | internal/graph/graph.go:401-416 | and an order of all acyclic nodes that never does is least |
| `BringupAgreement.OrdersAgree` | internal/graph/graph.go:374-424 | the runtime's order is the static one if and only if its queue never takes a node while an earlier declared one lacks nothing any more |
| `BringupAgreement.PassedOverInLayers` | bringup.go:83-123 | where it does, the node passed over is of the same dependency depth or of the next |
| `BringupQueue.FifoQueued` | bringup.go:83-115 | the runtime's queue takes nodes as they become ready, and by declaration those that do at once |
| `BringupQueue.QueuedUnique` | bringup.go:83-115 | one topological order of the acyclic nodes does |
| `BringupQueue.OrdersAgreeStatically` | internal/graph/graph.go:374-424 | the two orders are the same if and only if the static one, which the declaration settles, never takes a node before another that became ready earlier |
| `BringupQueue.AsDeclared` | internal/graph/graph.go:401-416 | where providers are declared first, the static order is the declaration |
| `BringupQueue.OrdersAgreeByPosition` | internal/graph/graph.go:374-424 | and then the runtime's order is the same if and only if no acyclic node has a provider declared after all those of a node declared later |
| `Dependencies.ProvidersFirst` | bringup.go:83-123 | outside the cycles a node comes after each of its providers, and none of those is in a cycle |
| `BringupAgreement.RuntimeTakesC` | bringup.go:83-123 | with a, b, c declared and b consuming what a offers, the runtime order is a, c, b |
| `BringupAgreement.LeastTakesB` | internal/graph/graph.go:401-416 | and that order is not the least one of that application |
| `AppRun.App.Start` | run.go:485-492 | configure, then activate: what the node is asked and in which states, where it ends and which transition failed, by its state and its two hooks |
| `AppRun.App.Stop` | run.go:506-518 | an active node is asked to deactivate and then for the shutdown from where that left it, another one for the shutdown from where it is, a finalized one for nothing; where it ends is decided by its own hooks |
| `AppRun.App.BringUp` | run.go:471-494 | succeeds exactly if every node could be started; else it names the first node in order that could not and its transition, with all before it active and all after it untouched; what was asked of which node in which state, in order; a node outside the cycles is activated only while all its providers are active, even in a bring-up that fails |
| `AppRun.App.ShutDown` | run.go:498-519 | what is asked of which node in which state, in reverse order: an active node is deactivated first; each node ends where its hooks let it; if they all agree, no node is taken down before everything that consumes from it is finalized |
| `AppRun.ConsumerLater` | run.go:471-519 | a consumer comes later in the order than its provider, unless both are in cycles |
| `AppRun.TransitedAllowed` | run.go:485-519 | one transition does what the lifecycle allows, if the hook agrees, and else nothing |
| `Lifecycles.TablesAgree` | lifecycle_wire.go:165-218 | the tables agree: known results are the only goals and every allowed transition but a shutdown has one, shutdowns are exactly the ways to Finalized, nothing leaves it, and primary states never are intermediate |
| `Lifecycles.ExactlyAllowed` | lifecycle_wire.go:165-187 | after any events a node at rest is changed by exactly seven transitions, named with where they start, what is shown meanwhile and where they end; a failed hook takes it back |
| `Lifecycles.Lifecycle.BeginTransition` | lifecycle.go:102-121 | the first critical section is one Begin step of the machine; refused exactly where the table has no entry |
| `Lifecycles.Lifecycle.EndTransition` | lifecycle.go:122-146 | the second critical section is one HookDone step: goal on success, start on failure |
| `Lifecycles.Lifecycle.Transit` | lifecycle.go:102-146 | an undisturbed transition succeeds exactly if its hook does and it is one of the seven, then ends at its goal, and leaves the state alone otherwise |
| `Lifecycles.EveryInterleaving` | lifecycle.go:102-146 | for all interleavings of any number of callers at most one transition is in flight, and the committed ones are a path of the table from Unconfigured to the node's state |
| `Lifecycles.IntermediateIffInFlight` | lifecycle.go:102-146 | the state is intermediate if and only if a transition is in flight |
| `Lifecycles.OthersAreRefused` | lifecycle.go:102-146 | while one is in flight nobody else changes anything, whatever they call |
| `Lifecycles.TransitionIsAtomic` | lifecycle.go:102-146 | with any interference between its two critical sections a transition acts as if done at once: goal if the hook succeeds, unchanged if it fails |
| `Lifecycles.FinalizedAbsorbs` | lifecycle.go:102-146 | nothing ever leaves Finalized |
| `LifecycleClient.Lifecycle.State` | lifecycle_client.go:79-94 | asks a declared node only; its answer is what it showed when it was met, and whatever was under way goes on until it is heard; remembers what it saw, Unknown when it heard nothing |
| `LifecycleClient.Lifecycle.Transition` | lifecycle_client.go:163-181 | one request; remembers the result of a transition that was acknowledged |
| `LifecycleClient.Lifecycle.Visit` | lifecycle_client.go:246-263 | one node in one pass: skipped, asked or refused by what it showed when it answered |
| `LifecycleClient.Lifecycle.BringUp` | lifecycle_client.go:237-266 | whatever calls fail, take effect unheard or arrive after their callers gave up: every request is one that its node could make when it last told its state, and could still make when it was sent if every earlier request to it was answered; Activate is sent and takes effect only when all declared nodes are Inactive or Active, success means all are Active, and it fails only for a cancellation, a silence, a refusal or a node that told a state it cannot be brought up from |
| `LifecycleClient.Lifecycle.RetryBringUp` | lifecycle_client.go:227-266 | over any number of retries, with requests of earlier ones still arriving, the same, and each node takes effective Configure and Activate at most once |
| `LifecycleClient.StaysValid` | lifecycle_client.go:246-263 | what a node can make when it answers, it can still make whenever the next request is sent, if and only if no request on its way to it can be made where it rests |
| `LifecycleClient.PassStaysValid` | lifecycle_client.go:246-263 | in a bring-up that is: if and only if the transition of the pass is not on its way to it already |
| `LifecycleClient.UnansweredSpoils` | lifecycle_client.go:246-263 | and one unanswered request is enough: wherever a node shows what the pass moves from, asking it in vain can leave it showing that still and unable to make the transition when it is asked again |
| `LifecycleClient.ConfiguredTwice` | lifecycle_client.go:246-263 | a run in which it is: a Configure that timed out takes effect between the answer Unconfigured and the next Configure |
| `LifecycleClient.SettleKeeps` | lifecycle_client.go:227-266 | whatever running transitions and late requests come to, in any order, no node goes back and no activation takes effect before all declared nodes are configured |
| `LifecycleClient.AskedKeeps` | lifecycle_client.go:163-181 | nor does it by one more request, whatever comes of that |
| `LifecycleClient.SettleStill` | lifecycle_client.go:163-181 | a node at which nothing runs and to which nothing is on its way stays as it is, so a request reaches it where it was sent |
| `LifecycleClient.EachAtMostOnce` | lifecycle_client.go:227-266 | a node driven by Configure and Activate only has taken each at most once, in that order |
| `LifecycleClient.Lifecycle.Shutdown` | lifecycle_client.go:208-225 | exactly one turn for each target, last first: a declared one is asked for its state and, if that is Unconfigured, Inactive or Active, once for the shutdown from there, and nothing else is called; reported are exactly the undeclared, the silent and those that did not agree, so with no call unanswered or refused exactly the undeclared; only shutdowns that were valid where their nodes last told they were, and valid when sent if every earlier request to the node was answered; every node that was at rest with nothing under way is Finalized in the end or reported |
| `LifecycleClient.Lifecycle.StopOne` | lifecycle_client.go:210-223 | one turn of the loop of Shutdown: its calls, what was heard, and that it failed exactly if the node is undeclared or a call to it was not answered or refused |
| `LifecycleClient.Reversed` | lifecycle_client.go:388-394 | the same names back to front |
| `Actions.GoalRecord.End` | action.go:182-203 | a handler's end: CANCELED, ABORTED or SUCCEEDED by error and context; done must not have been closed before |
| `Actions.GoalRecord.Cancel` | action.go:236-252 | a cancel request marks a goal that is not over and cancels its context; other goals are left alone |
| `Actions.ActionServer.HandleSendGoal` | action.go:152-170 | accepts exactly the ids that are not known; one Send step |
| `Actions.ActionServer.Complete` | action.go:180-204 | the section after the handler is one Complete step on its own record |
| `Actions.ActionServer.Expire` | action.go:206-211 | the timer deletes an id, and that id still stands for its own record; one Expire step |
| `Actions.ActionServer.LookUp` | action.go:215-222 | finds exactly the known goals, by their own record |
| `Actions.ActionServer.ReadResult` | action.go:223-226 | after done is closed, the terminal status and the result of the record |
| `Actions.ActionServer.HandleCancel` | action.go:229-259 | return code and canceling goals, each once, for the zero id, unknown, terminal and running goals; one Cancel step |
| `Actions.GoalStates` | action.go:127-259 | in every interleaving and for every goal: terminal exactly when its handler is back, done closed once and exactly then, context canceled before that exactly when CANCELING, CANCELED exactly if a cancel was accepted and the handler failed, SUCCEEDED exactly if it did not fail |
| `Actions.StatusMoves` | action.go:152-259 | one step moves a goal along EXECUTING, CANCELING, terminal only, never out of a terminal status, and closes done just then |
| `Actions.TerminalForever` | action.go:127-259 | status and result of a terminal goal never change again |
| `Actions.ResultsAgree` | action.go:215-227 | all get_result calls on a goal answer alike, whenever they looked it up and whenever they read, expired or not |
| `Actions.ExpiryForgetsItsOwn` | action.go:206-211 | in every interleaving the id that a timer deletes stands for the goal the timer was set for; no other goal is forgotten |
| `Actions.UnfinishedIsKnown` | action.go:152-213 | a goal that is not over is always known by its id |
| `Actions.CancelIsNotLost` | action.go:229-259 | from an accepted cancel on a goal ends CANCELED or SUCCEEDED, never ABORTED |
| `Clocks.SimClock.Set` | clock.go:100-154 | anchoring, clamping, firing and compacting in place are one Set step; each fired waiter's channel gets the time unless it is full |
| `Clocks.SimClock.FireAll` | clock.go:126-144 | the in-place filter keeps exactly the waiters that stay, in order, and fires exactly those that are due |
| `Clocks.SimClock.After` | clock.go:156-162 | a waiter at the end of the list, anchored if the clock has started |
| `Clocks.SimClock.Ticker` | clock.go:164-177 | the same with a period |
| `Clocks.SimClock.Stop` | clock.go:172-176 | marks the waiter; nothing else changes |
| `Clocks.SimClock.Pending` | clock.go:180-190 | counts the held waiters that are not stopped |
| `Clocks.EveryWaiter` | clock.go:100-177 | in every run each waiter has fired at exactly the times its own life says, computed from its birth and the set times since alone; it is held as long as it may fire; it is anchored exactly if the clock has started, with the deadline its life says |
| `Clocks.AfterSet` | clock.go:100-144 | after Set(t) the list is exactly the live waiters, in creation order, all due after t |
| `Clocks.NotBefore` | clock.go:100-162 | a one-shot waiter does not fire before its deadline or a reset |
| `Clocks.OneShotOnce` | clock.go:100-162 | a one-shot waiter fires exactly once, at the first set time that reaches its deadline, counted from the first Set if made before time began, or that goes backwards |
| `Clocks.TickerGoesOn` | clock.go:126-144 | a ticker is never over, and fires whenever time goes backwards |
| `Clocks.PeriodApart` | clock.go:126-144 | no bursts: without a reset two firings are a whole period apart |
| `Clocks.NoneMissed` | clock.go:126-144 | and none is missed: a ticker that stays silent is not yet a whole period past its last firing |
| `Buses.Inproc.PublishLocked` | bus.go:62-72 | the publisher's critical section is one Publish step |
| `Buses.Inproc.SubscribeLocked` | bus.go:79-89 | the subscriber's critical section is one Subscribe step |
| `Buses.Inproc.Publish` | bus.go:54-77 | the whole closure: a volatile message leaves what is kept alone, a transient local one is kept with the last of its topic, as many as the depth says but one at least; then every subscriber captured gets the message |
| `Buses.Inproc.Subscribe` | bus.go:79-97 | the whole subscription: a transient local subscriber is handed the kept messages in order, a volatile one nothing |
| `Buses.EachIsOwed` | bus.go:49-97 | in every interleaving what a subscriber got, with what is on its way to it, is what was kept when it joined and what its topic carried since |
| `Buses.ExactlyOnce` | bus.go:49-97 | once everybody has handed out, a subscriber has exactly that, no more and no less |
| `Buses.AtMostOnce` | bus.go:49-97 | at no moment of any run was a subscriber handed a message twice, as history or live |
| `Buses.LiveIsTheRest` | bus.go:79-89 | live messages are exactly the topic's publications after the subscription step |
| `Buses.RetainedIsLast` | bus.go:62-69 | publishers of equal depth keep exactly the last that many of their messages |
| `BusDurability.KeptIsLastSent` | bus.go:54-69 | what a topic keeps is the last of its transient local messages, as many as their depth says but one at least |
| `BusDurability.LateJoiner` | bus.go:54-89 | who joins a topic is handed exactly those, in order, if it is transient local, and nothing of before if it is volatile, whatever happens afterwards |
| `BusDurability.LateJoinerGets` | bus.go:54-97 | once everybody has handed out it has exactly those and the live messages |
| `BusDurability.VolatileLeavesNothing` | bus.go:54-69 | a volatile message changes nothing of what is kept, on any topic |
| `BusOrder.HistoryFirst` | bus.go:91-96 | whatever callers do from any moment of a run on, a subscriber is handed all its history before anything live, if and only if nothing was published on its topic while its history was not all handed out |
| `BusOrder.OrderKept` | bus.go:54-97 | and it is handed everything in order, history and then live messages as published, if and only if nothing was published on its topic while anything was on its way to it |
| `BusOrder.PublisherFirst` | bus.go:70-76 | a publisher can always get to a subscriber before anybody hands out anything else |
| `BusOrder.LiveMayComeFirst` | bus.go:91-96 | a run in which a live message overtakes history |
| `FleetTraces.TraceStore.Add` | fleet_traces.go:82-93 | overwriting the oldest keeps the ring the last cap records, with all of the new ones in turn |
| `FleetTraces.TraceStore.Ordered` | fleet_traces.go:82-93 | the slots read from next on are the last cap records of all that was ever added, oldest first |
| `FleetTraces.Stitcher.Link` | fleet_traces.go:217-237 | roots and children as the parent ids say |
| `FleetTraces.Stitcher.Walk` | fleet_traces.go:264-291 | ends, and appends the tree below a span in pre-order, siblings by start, with handovers, orphans and offsets right |
| `FleetTraces.Stitch` | fleet_traces.go:217-297 | the views are the pre-order of a forest of the spans; start and end are the extremes; processes are sorted, each once; crosses means more than one |
| `FleetTraces.StitchedTrace` | fleet_traces.go:217-297 | for distinct ids: no span twice, each child in one unbroken stretch below its parent at depth+1, and the result is a permutation of the input if and only if no span is its own ancestor |
| `FleetTraces.PlacedIffGrounded` | fleet_traces.go:264-296 | a span is placed exactly if its chain of parents reaches a root, at the depth that chain has |
| `FleetTraces.GroundedIffNoCycle` | fleet_traces.go:226-237 | all chains of parents reach roots if and only if there is no parent cycle |
| `FleetTraces.StackUnique` | fleet_traces.go:226-237 | a span has one chain of parents at most |
| `FleetTraces.StackShort` | fleet_traces.go:264-291 | chains repeat no span, so the recursion is no deeper than there are spans |
| `FleetTraces.StitchedIsPreOrder` | fleet_traces.go:264-296 | every deeper span is under its parent, every other one is a root |
| `MsgGen.TypeIDInjective` | internal/msggen/typedesc.go:18-52 | type ids are equal exactly if container and base kind are |
| `Samples.FieldTypeNumbers` | internal/msggen/typedesc.go:18-52 | the type ids as type_description_interfaces numbers them, by container and base |
| `Samples.InterfaceFields` | internal/msggen/resolve.go:314-347 | the six fields that an action is described by, and the three of a service |
| `MsgGen.IndividualOf` | internal/msggen/typedesc.go:75-87 | every field in order, with its name, type id, capacities and nested type |
| `MsgGen.Collector.CollectRefs` | internal/msggen/resolve.go:379-398 | ends on cyclic references; adds only types that are reached; on success all references of what is in refs are in refs; fails only if a reached type is missing |
| `MsgGen.Collector.AddServiceRefs` | internal/msggen/resolve.go:324-333 | the same for a service and its three messages |
| `MsgGen.Collector.DescribeMessage` | internal/msggen/resolve.go:278-286 | succeeds exactly if the message and all it reaches resolve; then exactly the reached types, in order of name, none twice |
| `MsgGen.Collector.DescribeService` | internal/msggen/resolve.go:266-277 | the same for a service, itself not among the referenced types |
| `MsgGen.Collector.DescribeAction` | internal/msggen/resolve.go:338-364 | the same for an action's four messages and two services |
| `MsgGen.Assemble` | internal/msggen/resolve.go:366-377 | the collected types sorted by name |
| `MsgGen.ClosedHasAll` | internal/msggen/resolve.go:379-398 | a closed set of types has everything that can be reached by nested references |
| `MsgGen.DescriptionUnique` | internal/msggen/resolve.go:366-377 | a type has one description, whatever order references were found in |
| `TypeHash.QuotedApart` | internal/msggen/typedesc.go:124-130 | two quoted strings followed by anything are equal only if the strings are: escaping is a prefix code |
| `TypeHash.FieldsApart` | internal/msggen/typedesc.go:110-122 | a written field can be read back from the front of a text |
| `TypeHash.TextInjective` | internal/msggen/typedesc.go:95-122 | two descriptions give the same text if and only if they are equal, whatever characters names contain |
| `Samples.DescriptionText` | internal/msggen/typedesc.go:95-122 | the text of a description with two fields and a referenced type, letter by letter |
| `TypeHash.WriteIndividual` | internal/msggen/typedesc.go:110-122 | the loop writes the text of one type after what was there |
| `TypeHash.HashableJSON` | internal/msggen/typedesc.go:95-108 | the loop writes the whole text |
| `Keyexprs.ProfileName` | transport/rmwzenoh/parse.go:134-142 | the profile of that reliability and durability, or none |
| `Keyexprs.ParseQoSKeyexpr` | transport/rmwzenoh/parse.go:88-130 | what QoSKeyexpr printed is read back under its profile's name; the source's sections, defaults and errors otherwise |
| `Keyexprs.ParseToken` | transport/rmwzenoh/parse.go:146-194 | a token that EndpointToken or NodeToken made is read back, exactly if its names keep clear of the token's own characters |
| `Keyexprs.QoSRoundTrip` | transport/rmwzenoh/rmwzenoh.go:55-65 | parsing a printed QoS section recovers reliability, durability and depth, and names the profile |
| `Keyexprs.ProfilesKeepNames` | transport/rmwzenoh/parse.go:134-142 | the three profiles get their own names back |
| `Samples.ProfileTexts` | transport/rmwzenoh/rmwzenoh_test.go:55-69 | the quality-of-service texts of the three profiles as live traffic has them |
| `Samples.ExplicitDefaults` | transport/rmwzenoh/parse.go:95-117 | the codes for reliable and volatile, which no printed text has, are read like empty sections |
| `Samples.PublisherToken` | transport/rmwzenoh/rmwzenoh_test.go:45-53 | the token of a publisher of /chatter as live traffic has it, for every session, node, type and hash |
| `Samples.DDSName` | rosmsg.go:20-26 | the DDS name of a three-part interface name |
| `Keyexprs.TopicBack` | transport/rmwzenoh/rmwzenoh.go:34-42 | a topic's absolute name survives mangling exactly if it has no percent sign |
| `Keyexprs.NodeTokenBack` | transport/rmwzenoh/rmwzenoh.go:70-73 | ParseToken inverts NodeToken if and only if session id and node name have no slash |
| `Keyexprs.EndpointTokenBack` | transport/rmwzenoh/rmwzenoh.go:77-81 | ParseToken inverts EndpointToken if and only if session id and node have no slash, and topic, type and hash no percent sign |
| `DDSNames.DDSRoundTrip` | rosmsg.go:20-26 | TypeFromDDS inverts DDSType, for all names whatever, if and only if no colon stands before a colon or slash and the name does not look like a four-part DDS name |
| `DDSNames.BackIsTidy` | transport/rmwzenoh/parse.go:76-82 | what TypeFromDDS gives never has a colon before a colon or a slash |
| `DDSNames.SplitPairsJoin` | transport/rmwzenoh/parse.go:76-82 | splitting by two colons from the left undoes joining of tidy segments |
| `Texts.SplitJoin` | transport/rmwzenoh/parse.go:146-150 | splitting undoes joining exactly if no part holds the separator |
| `Decimals.AtoiItoa` | transport/rmwzenoh/parse.go:150-161 | Atoi reads back what the decimal verb wrote, for all 64-bit integers |
| `Attachments.EncodeAttachment` | transport/rmwzenoh/rmwzenoh.go:87-93 | what is written reads back exactly if the gid has at most 255 bytes |
| `Samples.AttachmentSample` | transport/rmwzenoh/rmwzenoh_test.go:72-79 | the bytes of an attachment as live traffic has them: number, time and gid, each in its place |
| `Attachments.DecodeAttachment` | transport/rmwzenoh/rmwzenoh.go:98-109 | gives fields exactly if the bytes begin with the encoding of those fields; the two length errors otherwise |
| `Attachments.AppendTraceContext` | transport/rmwzenoh/rmwzenoh.go:122-131 | 29 bytes longer; the context is extracted again, and what the attachment says does not change |
| `Attachments.ExtractTraceContext` | transport/rmwzenoh/rmwzenoh.go:136-147 | gives a context exactly if the attachment ends with the magic, its two ids and a flag byte that is 1 just when sampled |
| `Attachments.DecodeEncode` | transport/rmwzenoh/rmwzenoh.go:87-109 | DecodeAttachment inverts EncodeAttachment, whatever follows, if and only if the gid has at most 255 bytes |
| `Attachments.DecodeExtended` | transport/rmwzenoh/rmwzenoh.go:98-131 | the same with a trace context appended |
| `Attachments.ExtractAppended` | transport/rmwzenoh/rmwzenoh.go:122-147 | ExtractTraceContext recovers an appended context from any attachment |
| `Attachments.PlainMistaken` | transport/rmwzenoh/rmwzenoh.go:136-147 | a plain 33-byte attachment is taken for an extended one if and only if the upper 32 bits of its sequence number are 0x52544443 |

## Left out

- Isometries.QuatFromRPYUnit: floats are reals here, and angles enter as cosine and sine of their halves; rounding, NaN and the RPY read-back with its clamp are not modelled.
- FrameTrees.Check: the problems are data here; their wording, the file they are loaded from and the publisher bookkeeping are not modelled.
- FrameLookup.LookupChains: asks for angles whose cosine and sine squares sum to one, which sine and cosine of the source always do.
- FrameCoordinates.PoseTurns: asks for the same angles.
- Cdr.Marshal: reflection is a schema datatype; a struct lists its exported fields, floats are their bit patterns, strings are bytes, and maps or other kinds are one unsupported type.
- Cdr.Unmarshal: what a failed decode leaves in the caller's value is not modelled.
- Missions.MissionRunner.LoopHead: time is an event that ends a backoff or a handler; the retry delay, per-step timeouts, panics, spans and the grace period of stop are not modelled.
- MissionProofs.MissionsEnd: that a handler returns at all, and so that the next event comes, is up to the application.
- MachineGraph.Resolve: calls and fields are data here; finding them in Go source text is not modelled, nor are timeout, retry and backoff texts and the sorting of machines by node.
- MachineGraph.WiredMirrors: asks for step names that are not empty, which the snake case of a field name never is.
- GraphBringup.DependenciesOf: the resolved graph is a datatype; building it from scanned source is not modelled.
- GraphBringup.BringupOrder: node names are distinct, and whoever serves an endpoint from within the application is one of its nodes, as Build makes sure.
- Bringup.BringupOrder: node names are distinct, which newApp makes sure of.
- AppRun.App.BringUp: nobody else drives the nodes meanwhile, and hooks answer alike each time they are called in one bring-up; starting the executors and what stop does beside shutDown are not modelled.
- Lifecycles.Lifecycle.EndTransition: the onActive and onInactive callbacks, which run after the lock is released, are left out, so nothing is said of their order; neither is the event publisher.
- LifecycleClient.Lifecycle.BringUp: nobody else drives the nodes. Where an earlier request is still on its way, a later one may be sent to a node that has moved on since it told its state (`LifecycleClient.ConfiguredTwice`), so validity is stated of that answer, and of the moment of sending exactly as far as it holds.
- LifecycleClient.Lifecycle.Transition: Configure, Activate, Deactivate, Cleanup, States and AwaitActive are loops over State and Transition and would add only easy members.
- Actions.ActionServer.HandleSendGoal: goal stamps, feedback, the status publisher and panicking handlers are not modelled; ids are numbers, the zero UUID is 0.
- Clocks.SimClock.Set: times are integers; a second Set between the firing section and the sends of a first one is not modelled, so what channels hold is stated for one Set at a time.
- Buses.Inproc.Publish: services on the bus, metadata and the warning at start are not modelled; a publisher's depth is what its profile says.
- FleetTraces.Stitch: ids within one trace are distinct and there is a span, as grouping by trace gives; the clock-skew findings, the ordering of whole traces, polling and JSON are not modelled, and offsets are whole microseconds.
- FleetTraces.TraceStore.Add: the capacity is positive; the source divides by it.
- MsgGen.Collector.DescribeMessage: reading and parsing interface files is a map of what resolves, sound in that definitions go by their own names and fields name message types; telling names of messages, services and actions apart by their form is not modelled.
- TypeHash.TextInjective: texts are sequences of Unicode characters; byte strings that are not valid UTF-8, and SHA-256 itself, are not part of the model.
- Keyexprs.EndpointTokenBack: the kind is one of the four endpoint kinds and integers are 64-bit, as the source's types and callers have it.
- Attachments.ExtractAppended: trace and span ids have 16 and 8 bytes, as their array types say.
- HTTP dashboards, the fleet portal, metrics, logs, process control, code generation and command lines: input, output and presentation.
- The zenoh transport and URDF decoding: calls into foreign code and library parsing.
- TestApp.Settle, set_parameters_atomically and parameter files: their claims rest on scheduling or hold only conditionally, or would add easy members.
