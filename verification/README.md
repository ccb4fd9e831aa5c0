# Verified models of the fighters engine

This project models the parts of the engine and its tools whose behaviour is easiest to get wrong, and proves
what they are for. Each module follows one component; methods and classes keep the loops, tables and arrays of
the code they model and are proved against specification functions, and the theorems are about those functions.

- **Runway sequencing** (`AtcTypes`, `Sequencer`, `AtcFacility`, `AtcService`). One tower's requests, cancels and
  updates as functions on its state, and the classes `Tower` and `Service` that refine them. A run is any sequence
  of such events against any changing world. `UpdateDecides` and `RequestDecides` say what each event decides in terms
  of the state before it alone. `Safety` proves mutual exclusion on the runway, `OccupantClearance` its exact
  converse, `QueueOrder` the departure and arrival queues, `HoldOffTerm` what a wave-off means, `BoundedWaiting` that
  a lone arrival cannot starve departures and how long they wait, `Starvation` that two arrivals can.
- **Machines that obey it** (`StateMachine`, `AtcBehaviors`, `ComposedSafety`, `FlownPhases`). The generic state
  machine controller, the departure and arrival compositions, their safety when run against the towers, and the phases and
  commands of the takeoffs and landings they fly.
- **Mesh node plans** (`Matrices`, `MeshNodePlan`, `MeshPose`). The iterative depth-first walk of an arbitrary node
  graph, what it records, and pose composition over the recorded forest.
- **Terrain tile selection** (`TerrainTiles`). The pruned quadtree descent against a filter of the enumeration.
- **Child process output** (`StdoutLines`, `StdoutQueue`). Lines through a reader thread, a mutex, a condition
  variable and an atomic flag, as interleaved steps.
- **Spoken and typed orders** (`PhraseText`, `SpokenWords`, `PhraseScore`, `WingmanPhrase`, `IntentPrompt`,
  `IntentGate`). Words and phrase matching by masking, the prompt a chat line is wrapped in, and the gate a model's answer passes.
- **Smaller components.** `Threat` (target designation), `IncludeSeam` (include reachability), `LogRing` (the log
  ring buffer), `Utf8` (decoding), `Formation` (station geometry). `SeqOps` holds sequence lemmas they share and `Wrappers` the optional value.

`dafny verify dfyconfig.toml` checks everything.

Where the code and its documentation differ, the model follows the code:

- A hold-off is documented (engine/atc/AtcFacility.cpp:51-53) to go only with the whole record. A request naming a
  stale handle in the same pool slot also lifts it (`HoldOffTerm.ParkedUntilDisturbed`).
- An occupant can lose its clearance and keep the runway, by declaring inbound or, if it is a departure, by asking
  to land (engine/atc/AtcFacility.cpp:111-121). So mutual exclusion is stated from the clearance to the occupant;
  `OccupantClearance.OccupantReadsItIffUntouched` says, over every run, exactly when the converse holds.
- The tile list is documented (tools/gen_terrain_tiles.py:246-248) to match the enumeration's order. For one box it
  does exactly when what is selected of each level happens to be ordered (`TerrainTiles.DescentIsTheFilter`); for
  every box, exactly when the faces are given in order, which the command line does not require
  (`TerrainTiles.OrderMatchesIffFacesInOrder`).
- Zero lateral spacing is documented as line astern (engine/ai/FormationController.h:24); it puts the two members
  of each rank on one station (`Formation.SharedIffNoLateralSpacing`).
- The cue "don't shoot" (engine/ai/WingmanPhraseMatch.cpp:78) cannot match (`WingmanPhrase.DontShootIsNeverHeard`).
- The reader announces the end of output without the mutex (platform/Subprocess.cpp:129-130), so a consumer can
  miss it and wait out its timeout. Exactly those standing between their flag check and their wait at that moment can
  (`StdoutQueue.MissesIffBetweenCheckAndWait`, `StdoutQueue.CanMissIffBetweenCheckAndWait`).

## Model

| member | source | states |
|---|---|---|
| Safety.MutualExclusion | engine/atc/AtcFacility.cpp:93-268 | in every state of every run of requests, cancels, deaths and updates, two flights reading a runway clearance are one flight, the occupant; it reads cleared-to-land exactly when the occupancy is an arrival's, cleared-for-takeoff exactly when it is a departure's |
| Safety.RunKeepsInv | engine/atc/AtcFacility.cpp:93-268 | every reachable state keeps: a runway clearance is only ever the occupant's, both queues are duplicate-free, an arrival occupant is in the arrival sequence, a departure occupant is not in the departure queue, table slots are keyed by their flight's index |
| Safety.StepKeepsInv | engine/atc/AtcFacility.cpp:93-268 | the same, for any one step from any state that has it |
| Safety.UpdateKeepsInv | engine/atc/AtcFacility.cpp:135-268 | the same for one update, whatever order the unstable sort leaves ties in |
| UpdateDecides.ShortFinalIsWavedOff | engine/atc/AtcFacility.cpp:154-267 | while the runway is held past steps 1 and 2, an update tells exactly this flight to go around: an arrival other than the occupant, past its hold-off with no earlier entry of the sequence past its own, under 3000 m out and not yet reading go-around, whoever the occupant is; it is parked for 7200 ticks, and nobody else is spoken to |
| UpdateDecides.HeldRunwayStays | engine/atc/AtcFacility.cpp:154-206 | a runway held past steps 1 and 2 stays with its occupant, its clock starting anew only for an unawaited arrival over 14400 ticks, and every live departure stays queued |
| UpdateDecides.WhoHasTheRunway | engine/atc/AtcFacility.cpp:149-256 | in any sound state with one live handle per pool slot, who has the runway after an update, both directions: a live occupant not done and not over budget keeps it, else the first arrival past its hold-off if under 6000 m, else the first live departure unless departures are held |
| UpdateDecides.EveryLine | engine/atc/AtcFacility.cpp:154-267 | every radio line of an update and no other: to whom, and on which ground |
| UpdateDecides.WhatEveryoneReads | engine/atc/AtcFacility.cpp:135-267 | what every live flight reads after an update and how long it is held off: the new occupant its clearance, the waved off go-around and 7200 ticks, an occupant that is done departed or landed, everyone else what it read before |
| UpdateDecides.WhoStillWaits | engine/atc/AtcFacility.cpp:141-250 | the departure queue after an update is the live part of the old one in order, less the flight that takes off |
| UpdateDecides.WhoIsStillInbound | engine/atc/AtcFacility.cpp:141-217 | the arrivals after an update are the live ones but one that has landed, each as often as before, sorted by distance |
| UpdateDecides.TheDeadAreForgotten | engine/atc/AtcFacility.cpp:135-152 | a dead flight has no place in either queue, no record and no runway after an update |
| RequestDecides.TakeoffRequestDecides | engine/atc/AtcFacility.cpp:93-104 | a takeoff request queues a valid flight once, last, unless it has the runway; it reads hold-short if it read none, landed or departed, and is otherwise left alone; asking twice is asking once |
| RequestDecides.LandingRequestDecides | engine/atc/AtcFacility.cpp:106-114 | a landing request queues a flight once, last, and puts it in the pattern unless it is cleared; a field that takes no landings does nothing; a hold-off stands |
| RequestDecides.InboundDecides | engine/atc/AtcFacility.cpp:116-123 | declaring inbound does so from any reading, which becomes inbound, and is acknowledged |
| RequestDecides.CancelDecides | engine/atc/AtcFacility.cpp:125-133 | a cancel takes the flight out of both queues, off the runway and out of its slot, and leaves everyone else as they were |
| RequestDecides.ElapsedWraps | engine/atc/AtcFacility.cpp:158-182 | elapsed time is the difference of 64-bit ticks, around the word when the counter has wrapped |
| OccupantClearance.OccupantReadsItIffUntouched | engine/atc/AtcFacility.cpp:49-268 | the converse of the exclusion, over every run with one live handle per pool slot: an occupant has held the runway since some step, and it reads its clearance if and only if no request or cancel has written over its slot since |
| OccupantClearance.UpdateKeepsReading | engine/atc/AtcFacility.cpp:135-268 | an update never takes an occupant's clearance from it |
| OccupantClearance.UpdateSettlesReading | engine/atc/AtcFacility.cpp:135-268 | an update leaves a staying occupant reading what it read and a new one reading its clearance; nobody vacated gets the runway back for the same purpose in the same update |
| OccupantClearance.RequestSettlesReading | engine/atc/AtcFacility.cpp:49-133 | between updates a staying occupant reads its clearance afterwards if and only if it did before and the event is not one that overwrites its slot |
| QueueOrder.FirstComeFirstServed | engine/atc/AtcFacility.cpp:93-256 | over any run, the flights cleared for takeoff on the radio followed by those still queued are the joining order with flights left out, and what is left out is, counted, exactly the cancelled and the dead |
| QueueOrder.UpdateQueue | engine/atc/AtcFacility.cpp:141-256 | one update clears at most the front of the surviving departure queue and leaves the rest in order |
| QueueOrder.ArrivalLeaves | engine/atc/AtcFacility.cpp:106-206 | an arrival is out of the sequence after a step exactly when it cancelled, its entity is gone, or it has landed |
| QueueOrder.UpdateArrivals | engine/atc/AtcFacility.cpp:141-217 | which flights an update leaves in the arrival sequence, both directions |
| QueueOrder.NotReclearedUnasked | engine/atc/AtcFacility.cpp:171-268 | a flight out of the arrival sequence is never cleared to land again until it asks again, over any run |
| QueueOrder.LandingRetires | engine/atc/AtcFacility.cpp:171-181 | a stopped lander is retired in the same update: out of the sequence, told to taxi, reading landed unless that update clears it for takeoff |
| QueueOrder.GrantWritesOneSlot | engine/atc/AtcFacility.cpp:233-267 | granting and waving off write at most one slot of the clearance table |
| QueueOrder.GrantTouchesOne | engine/atc/AtcFacility.cpp:233-267 | a flight that owns its slot and is not on offer as an arrival keeps its record and hold-off through the grant, unless it becomes the departure |
| HoldOffTerm.HeldForTheTerm | engine/atc/AtcFacility.cpp:49-71 | a flight told to go around at tick t is parked (held out of the sequence, not an arrival occupant) through every step before t + 7200 that does not disturb its slot |
| HoldOffTerm.ParkedUntilDisturbed | engine/atc/AtcFacility.cpp:49-64 | between updates a hold-off survives a step if and only if the step does not name another handle in the same pool slot or cancel the slot; a disturbed flight is sequenceable at once |
| HoldOffTerm.LiveNamesDoNotDisturb | engine/atc/AtcFacility.cpp:49-58 | a request naming a live entity never disturbs another live flight's hold-off |
| HoldOffTerm.UpdateKeepsParked | engine/atc/AtcFacility.cpp:135-268 | an update inside the term leaves a parked flight parked |
| HoldOffTerm.WaveOffParks | engine/atc/AtcFacility.cpp:182-202 | whoever an update tells to go around, by either branch, is parked for 7200 ticks |
| HoldOffTerm.ParkedIsInvisible | engine/atc/AtcFacility.cpp:191-266 | an update with a parked flight and the same update without it leave the same state, that flight apart, and say the same on the radio: it neither takes the runway nor blocks a departure |
| HoldOffTerm.WaveOffHoldsForTheTerm | engine/atc/AtcFacility.cpp:49-268 | in every run, from the wave-off at t on, with the flight alive and not cancelled and every request naming a handle that resolves, it is parked before and after each update before t + 7200, and that update is the one the field would have made without it |
| BoundedWaiting.DepartureIsServed | engine/atc/AtcFacility.cpp:154-256 | with departures not held and at most one arrival, never cancelled and otherwise arbitrary, a departure waiting at position k is cleared within (k + 1) x (arrival budget + departure budget + 2 x the largest gap between updates) |
| BoundedWaiting.UpdateServes | engine/atc/AtcFacility.cpp:154-256 | the ranking step: an update clears the waiting departure in time, or leaves it waiting with a deadline no later |
| BoundedWaiting.RunsAreTimely | engine/atc/AtcFacility.cpp:154-206 | after any update no occupancy is older than its budget |
| Starvation.TwoArrivalsStarve | engine/atc/AtcFacility.cpp:29-33 | for every n a run of n more updates a second apart in which two circling arrivals alternate and the waiting departure never moves: the one-arrival hypothesis of the bound is needed |
| Starvation.NextTurn | engine/atc/AtcFacility.cpp:182-256 | one second of that run: within budget the owner keeps the runway, over budget it is waved off and held out and the other arrival takes over |
| AtcFacility.Tower.RequestTakeoff | engine/atc/AtcFacility.cpp:93-104 | the method leaves exactly the sequencer's next state |
| AtcFacility.Tower.RequestLanding | engine/atc/AtcFacility.cpp:106-114 | the same, for a landing request |
| AtcFacility.Tower.DeclareInbound | engine/atc/AtcFacility.cpp:116-123 | the same, with its radio line |
| AtcFacility.Tower.RemoveFlight | engine/atc/AtcFacility.cpp:125-133 | the same, for a cancel |
| AtcFacility.Tower.ReleaseRunway | engine/atc/AtcFacility.cpp:154-206 | the occupancy is ended, re-armed or waved off as the sequencer says |
| AtcFacility.Tower.GrantRunway | engine/atc/AtcFacility.cpp:219-267 | the free runway is given away, or short final is waved off, as the sequencer says |
| AtcFacility.Tower.Update | engine/atc/AtcFacility.cpp:135-268 | the whole update, erase loops and sort included, is one sequencer update and says its radio lines |
| AtcFacility.SortByDistance | engine/atc/AtcFacility.cpp:209-217 | a permutation of the arrivals, nearest first, unresolved entities last |
| AtcFacility.EraseUnless | engine/atc/AtcFacility.cpp:141-142 | erase-remove is filtering in order |
| AtcFacility.Tower.FindHead | engine/atc/AtcFacility.cpp:222-224 | the first arrival not serving a wave-off |
| AtcFacility.Tower.AnyOtherSequenceable | engine/atc/AtcFacility.cpp:191-193 | whether another arrival is waiting, both directions |
| AtcService.Service.GetOrCreate | engine/atc/AtcService.cpp:20-46 | a tower is opened on first use of a known airport, in its initial state, and every other tower is untouched |
| AtcService.RoutedReaches | engine/atc/AtcService.cpp:20-75 | a request reaches the tower of its airport, a newly made one if that is not in use yet, or nobody if the airport is unknown; no other tower is touched or closed |
| AtcService.Service.RequestTakeoff | engine/atc/AtcService.cpp:56-61 | the request reaches one tower and no other: the named one, or the one nearest the flight when none is named |
| AtcService.Service.RequestLanding | engine/atc/AtcService.cpp:63-68 | the same for a landing request |
| AtcService.Service.DeclareInbound | engine/atc/AtcService.cpp:70-75 | the same, and its radio line joins the outbox |
| AtcService.Service.Cancel | engine/atc/AtcService.cpp:77-81 | every tower forgets the flight |
| AtcService.Service.ClearanceOf | engine/atc/AtcService.cpp:105-113 | some tower's own answer, and none only when no tower knows the flight |
| AtcService.Service.Tick | engine/atc/AtcService.cpp:115-119 | every tower makes exactly one update, and the outbox grows by their lines, tower by tower |
| AtcService.Service.DrainTransmissions | engine/atc/AtcService.cpp:121-126 | hands over the whole outbox and empties it |
| StateMachine.FirstEnabledDecides | engine/ai/StateMachineController.cpp:92-109 | the first transition in insertion order that is enabled and leads elsewhere decides; an unknown target there ends the search with no move |
| StateMachine.StateMachineController.SampleOnce | engine/ai/StateMachineController.cpp:81-112 | one sample is the machine's step: the child active before it drives the output and is kept, advanced |
| StateMachine.StateMachineController.TestTransitions | engine/ai/StateMachineController.cpp:92-109 | the transition loop finds the state the specification chooses |
| StateMachine.StateMachineController.AddStateOf | engine/ai/StateMachineController.cpp:44-51 | appends a state, ignoring a duplicate name |
| StateMachine.StateMachineController.AddTransitionOf | engine/ai/StateMachineController.cpp:53-63 | appends a transition to a known state and changes nothing for an unknown one |
| StateMachine.StateMachineController.SetInitialState | engine/ai/StateMachineController.cpp:65-72 | enters a known state afresh and ignores an unknown one |
| StateMachine.StateMachineController.EnterState | engine/ai/StateMachineController.cpp:32-42 | resets the dwell time and makes a new child |
| AtcBehaviors.MakeDepartureController | engine/atc/AtcBehaviors.h:57-71 | the calls build exactly the three-state departure machine, holding short |
| AtcBehaviors.MakeArrivalController | engine/atc/AtcBehaviors.h:75-90 | the calls build exactly the two-state arrival machine, in the pattern |
| AtcBehaviors.TakeoffOnlyAdvances | engine/ai/TakeoffController.cpp:38-59 | however observed, a takeoff's phase never goes back and leaves the roll only after a sample at rotation speed |
| AtcBehaviors.LandingOnlyAdvances | engine/ai/LandingController.cpp:46-65 | a landing's phase never goes back and rolls out only after a sample at touchdown height |
| FlownPhases.TakeoffIsFlownThrough | engine/ai/StateMachineController.cpp:81-112 | in every fleet run, from the sample at which a departure leaves hold short its machine flies one takeoff: at every later moment the child is in the phase that the samples since then have brought it to, until the first sample above the hand-off altitude ends the takeoff for good |
| FlownPhases.TakeoffCommandsFollowPhase | engine/ai/TakeoffController.cpp:61-109 | every command of that takeoff is that of the phase reached: full throttle until it is done, gear down up to 30 m in the climb, no brakes |
| FlownPhases.LandingIsFlownThrough | engine/ai/StateMachineController.cpp:81-112 | the same for a landing, from the turn onto final until it goes around |
| FlownPhases.LandingCommandsFollowPhase | engine/ai/LandingController.cpp:67-112 | every command on final is that of the phase reached: gear down throughout, power only before the flare and then to hold the approach speed, full wheel brake in the rollout |
| FlownPhases.TakeoffPhaseIsGates | engine/ai/TakeoffController.cpp:38-59 | a takeoff has come n phases far exactly when its samples met the first n gates one after another: above 2 m/s, at rotation speed, above 3 m, at the climb-out height |
| FlownPhases.LandingPhaseIsGates | engine/ai/LandingController.cpp:46-65 | and a landing: below 12 m, at or below 0.6 m, below 2 m/s |
| ComposedSafety.DeparturesMoveOnClearance | engine/atc/AtcBehaviors.h:57-71 | in every interleaving of towers and machines a departure machine either still holds short or left at one step, on a sample taken while its flight was some tower's departure occupant; it never returns, and every command until then was idle throttle, gear down |
| ComposedSafety.ArrivalsMoveOnClearance | engine/atc/AtcBehaviors.h:75-90 | an arrival machine turns onto final only as some tower's arrival occupant, and goes back only when told to go around and after at least a second of samples since the turn |
| ComposedSafety.DepartureSample | engine/ai/StateMachineController.cpp:81-112 | one sample of the departure composition leaves hold short if and only if it reads a takeoff clearance |
| ComposedSafety.ArrivalSample | engine/ai/StateMachineController.cpp:81-112 | one sample of the arrival composition moves if and only if its clearance, and for the way back its dwell, says so |
| ComposedSafety.DwellIsTimeOnFinal | engine/ai/StateMachineController.cpp:86-95 | the dwell timer is the sampled time since the turn onto final |
| ComposedSafety.FleetKeepsInv | engine/atc/AtcService.cpp:56-119 | every tower and every machine of a fleet keeps its invariant in every run |
| MeshNodePlan.BuildMeshNodePlan | platform/MeshNodePlan.cpp:63-166 | for every graph, cyclic, multi-parent or with links out of range, the walk ends; the order lists exactly the nodes reachable from a root through matching nodes, once, parents first, and is that of a recursive depth-first search; transforms, parents and flags are recorded as the tree says |
| MeshNodePlan.VisitKeepsWalking | platform/MeshNodePlan.cpp:117-155 | visiting a popped node keeps the forest, its records, reachability, coverage and the remaining search order |
| MeshNodePlan.SkipKeepsWalking | platform/MeshNodePlan.cpp:117-127 | so does skipping a node already listed or filtered out |
| MeshNodePlan.WalkDone | platform/MeshNodePlan.cpp:117-155 | when nothing is pending every reachable node is listed |
| MeshNodePlan.DfsConcat | platform/MeshNodePlan.cpp:117-155 | searching two lists together is searching one after the other |
| MeshNodePlan.TopFirstPushed | platform/MeshNodePlan.cpp:151-154 | pushing children last to first makes the first child the next visited |
| MeshNodePlan.ClassifyDamage | platform/MeshNodePlan.cpp:72-91 | a node is flagged as damage exactly when its name ends in _b after something, and as having a damage sibling exactly when it is the first of its name and such a node extends it |
| MeshNodePlan.FindRoots | platform/MeshNodePlan.cpp:93-112 | the scene's in-range nodes, or every node that is nobody's child when no scene is declared |
| MeshNodePlan.WhereTheWalkStarts | platform/MeshNodePlan.cpp:93-112 | the default scene decides if it exists, else the first scene, else the nodes that are nobody's child |
| MeshNodePlan.VariantKeeps | platform/MeshNodePlan.cpp:42-60 | every variant keeps untagged and malformed nodes; a tagged node is kept exactly when its tag names the variant, and never when no variant is asked for |
| MeshNodePlan.DamageNames | platform/MeshNodePlan.cpp:83-86 | a damage node is one whose name is a non-empty name with _b appended |
| MeshNodePlan.PrimitivesComplete | platform/MeshNodePlan.cpp:157-164 | the draw list holds every primitive of every listed node's mesh, each once, and nothing else |
| MeshNodePlan.CollectPrimitives | platform/MeshNodePlan.cpp:157-164 | the loops collect that list, grouped in the plan's order |
| MeshPose.FlagsMarkSubtrees | platform/MeshNodePlan.cpp:139-143 | a listed node is a damage variant, or shadowed by damage, exactly when it or a recorded ancestor is so named |
| MeshPose.ComposeNodeGlobals | platform/MeshNodePlan.cpp:168-181 | one forward pass gives every listed node its parent's transform times the local transform of the first pose that names it, or times its rest transform when no pose does, a root its local transform alone, and every other node the identity |
| MeshPose.FirstPoseDecides | platform/MeshNodePlan.cpp:168-181 | the same of anything that satisfies the composition relation, over pose indices |
| MeshPose.RestIsComposed | platform/MeshNodePlan.cpp:145-181 | with no pose, whatever composition returns is the plan's rest transforms |
| MeshPose.ComposedIsUnique | platform/MeshNodePlan.cpp:168-181 | a forest and its poses determine the composed transforms |
| MeshPose.PoseStaysInSubtree | platform/MeshNodePlan.cpp:168-181 | pose lists that differ at one node compose to the same transforms outside that node and its recorded descendants |
| MeshPose.AbsentPoseIsIgnored | platform/MeshNodePlan.cpp:168-181 | a pose on a node that is not listed changes nothing |
| MeshPose.OnePoseOneLocal | platform/MeshNodePlan.cpp:171-178 | a pose inserted anywhere in the list leaves every other node's local transform alone |
| MeshPose.ConjugationCommutes | platform/MeshOrient.h:29-44 | what composing the plan and poses rotated into the body frame returns is what composing them as authored returns, rotated |
| Matrices.InBodyComposes | platform/MeshOrient.h:29-44 | conjugation by the content-to-body map respects products |
| Matrices.ToBodyIsOrthonormal | platform/MeshOrient.h:37-44 | the transposed map is its inverse on both sides |
| Matrices.ToBodyActsAsMap | platform/MeshOrient.h:27-41 | the matrix acts on directions as (x, y, z) -> (z, y, -x) |
| Matrices.MulAssoc | platform/MeshNodePlan.cpp:145-146 | 4 x 4 products associate |
| Matrices.MulIsRowsTimesColumns | platform/MeshNodePlan.cpp:145-146 | each entry of a product is the row of the left factor times the column of the right |
| Matrices.InBodyActsOnRotated | platform/MeshOrient.h:29-44 | rotating into the body frame and then applying the conjugated transform is applying the original and then rotating |
| TerrainTiles.DescentIsTheFilter | tools/gen_terrain_tiles.py:232-274 | for any faces and any tiles meeting the box, the descent selects exactly the tiles that filtering the whole enumeration selects if and only if no tile meeting the box has an ancestor that misses it; it lists them in the same order if and only if, besides, each level's filtered tiles are ordered by face, then j, then i |
| TerrainTiles.OrderMatchesIffFacesInOrder | tools/gen_terrain_tiles.py:246-248 | the order is the enumeration's for every box and all nesting bounds if and only if the faces are strictly ascending, or merely not descending when the deepest level is 0; likewise for every selection that cuts nothing off |
| TerrainTiles.NestingSuffices | tools/gen_terrain_tiles.py:238-243 | bounds that nest in their parent's always meet that condition |
| TerrainTiles.TestsBounded | tools/gen_terrain_tiles.py:238-243 | the descent tests at most one tile per face and four per intersecting tile above the deepest level |
| TerrainTiles.AllTestsCount | tools/gen_terrain_tiles.py:256-268 | exactly one test per face and four per kept tile above the deepest level |
| TerrainTiles.UnorderedFacesDiffer | tools/gen_terrain_tiles.py:246-248 | the witness: two faces given in descending order, both roots meeting the box, come back sorted from the descent but not from the enumeration |
| TerrainTiles.BboxTiles | tools/gen_terrain_tiles.py:232-274 | the method, by-level table and sorts included, computes the descent's selection, refuses exactly a box with min above max, and counts its tests; with bounds that nest, a tile of the level range is returned exactly when some latitude and longitude lie within both its bounds and the box |
| TerrainTiles.IntersectsIffPointShared | tools/gen_terrain_tiles.py:221-229 | the four comparisons hold exactly of two boxes that have a point in common |
| TerrainTiles.GridRunsAlongRows | tools/gen_terrain_tiles.py:189-194 | within a face and level, tile (i, j) is number j x 2^level + i |
| TerrainTiles.EnumerateTiles | tools/gen_terrain_tiles.py:176-194 | the nested loops list every tile of the level range, coarse first |
| TerrainTiles.SelectTiles | tools/gen_terrain_tiles.py:176-194 | with nesting bounds a caller gets exactly the tiles of the level range that share a point with the box, and with faces in order besides, the filtered enumeration; without a box, the enumeration; an inverted box is refused |
| TerrainTiles.Descent.Descend | tools/gen_terrain_tiles.py:256-265 | one recursive call appends what the descent keeps to each level's list and counts its tests |
| TerrainTiles.KeptMembers | tools/gen_terrain_tiles.py:256-265 | a tile is kept below t exactly when it descends from t through tiles that all meet the box |
| TerrainTiles.OneOrder | tools/gen_terrain_tiles.py:270-273 | tiles of one level have a single ordered arrangement, so the sort's algorithm does not matter |
| StdoutQueue.NothingLost | platform/Subprocess.cpp:115-132 | under every interleaving of reader and consumers, delivered, queued, in-hand and unread lines together and in order are the whole output; what is delivered is a prefix of it |
| StdoutQueue.DoneMeansAllDelivered | platform/Subprocess.cpp:180-194 | a consumer told there is no more because the reader is done is told so only after every line was delivered |
| StdoutQueue.HowACallReturns | platform/Subprocess.cpp:180-194 | a call returns in three ways only: with the front line, told it is over with the end announced and the queue empty, or timed out; a consumer woken otherwise never leaves empty-handed |
| StdoutQueue.QueueMoves | platform/Subprocess.cpp:122-193 | the queue grows only at the back, by the line just read, and shrinks only at the front |
| StdoutQueue.PrintedLinesArrive | platform/Subprocess.cpp:115-132 | lines a child prints one by one are, by then, delivered as printed |
| StdoutQueue.StepKeepsInv | platform/Subprocess.cpp:115-194 | every step keeps conservation, the meaning of the end flag, the mutex's exclusion, and an empty queue for a consumer past its empty check |
| StdoutQueue.MissesIffBetweenCheckAndWait | platform/Subprocess.cpp:129-190 | in every run, after the end is announced at step j, a consumer is asleep un-notified if and only if at j it stood between its flag check and its wait, has gone to sleep since and has not woken; a consumer anywhere else is told |
| StdoutQueue.CanMissIffBetweenCheckAndWait | platform/Subprocess.cpp:129-190 | once the end is announced, some continuation leaves a consumer asleep un-notified if and only if some consumer stands between its check and its wait |
| StdoutQueue.EndCanBeMissed | platform/Subprocess.cpp:129-130 | the witness: such a run exists |
| StdoutLines.LinesRoundTrip | platform/Subprocess.cpp:117-122 | lines that fit the buffer, with no newline or NUL and not ending in a carriage return, are read back as printed, whether they end in a newline or in a carriage return and a newline |
| StdoutLines.StripLine | platform/Subprocess.cpp:118-121 | the stripping loop |
| StdoutLines.Stripped | platform/Subprocess.cpp:118-121 | every trailing newline and carriage return is gone, and nothing else |
| PhraseText.MaskLeavesTheRest | engine/ai/WingmanPhraseMatch.cpp:158-166 | masking an occurrence leaves exactly the occurrences that share no character with it, so blanks never make a new one |
| PhraseText.NormalisedShape | engine/ai/WingmanPhraseMatch.cpp:92-115 | normalised text is empty or words with exactly one space before, between and after |
| PhraseText.NormalisedKeepsLetters | engine/ai/WingmanPhraseMatch.cpp:92-115 | every letter and digit is kept, in order and lower-cased, and no other |
| PhraseText.NormalisedOnce | engine/ai/WingmanPhraseMatch.cpp:92-115 | normalising twice is normalising once |
| PhraseText.Normalise | engine/ai/WingmanPhraseMatch.cpp:92-115 | the loop computes it |
| SpokenWords.SeparatorsSeparate | engine/ai/WingmanPhraseMatch.cpp:96-115 | any character but a letter or digit separates words and does nothing else: the normalised parts stand side by side, sharing the space between |
| SpokenWords.WordsStayWhole | engine/ai/WingmanPhraseMatch.cpp:96-115 | letters and digits alone are one word, kept letter by letter with capitals made small, between two spaces |
| SpokenWords.PartsJoin | engine/ai/WingmanPhraseMatch.cpp:96-115 | cut wherever no word runs across, a transcript may be normalised part by part |
| SpokenWords.FoundIffSpoken | engine/ai/WingmanPhraseMatch.cpp:92-126 | a phrase is found in the normalised transcript exactly when some stretch of the transcript, cut at word boundaries, normalises to it |
| PhraseText.FindPhrase | engine/ai/WingmanPhraseMatch.cpp:119-126 | the first whole-word occurrence at or after a position, or none |
| PhraseScore.ScoreIsDisjointEvidence | engine/ai/WingmanPhraseMatch.cpp:137-171 | a score is the summed weight of the cues that claimed words; every claim is a whole-word occurrence, no two claims share a character, and an occurrence not claimed overlaps a claim of a longer cue, of an equally long earlier one, or its own |
| PhraseScore.ScoreCues | engine/ai/WingmanPhraseMatch.cpp:137-171 | the masking loops compute that score |
| PhraseScore.SortIndices | engine/ai/WingmanPhraseMatch.cpp:140-151 | the in-place insertion sort yields the claiming order |
| PhraseScore.OrderIsSorted | engine/ai/WingmanPhraseMatch.cpp:140-151 | that order lists every cue once, longer first and ties as listed |
| WingmanPhrase.MatchPhrase | engine/ai/WingmanPhraseMatch.cpp:226-238 | answers exactly the command scoring at least 3 and at least 2 above every other, and declines when there is none |
| WingmanPhrase.BestPhrase | engine/ai/WingmanPhraseMatch.cpp:201-224 | the best command, its score, and the exact best score among the others; nothing exactly when the transcript is empty, too long or without a letter or digit |
| WingmanPhrase.NamedIsUnique | engine/ai/WingmanPhraseMatch.cpp:226-238 | at most one command can be answered |
| WingmanPhrase.NamedWasSaid | engine/ai/WingmanPhraseMatch.cpp:137-171 | an answered command was said: some stretch of the transcript, cut at word boundaries, is one of its cues |
| WingmanPhrase.OnlyCommandHeard | engine/ai/WingmanPhraseMatch.cpp:137-238 | a transcript in which one command alone is heard, by cues that weigh at least 3, is answered with it, whatever the other words and whatever separates them |
| WingmanPhrase.HoldFireIsObeyed | engine/ai/WingmanPhraseMatch.cpp:71-238 | so any hold-fire cue, heard with no other command's, holds fire |
| WingmanPhrase.CeaseFireIsHeard | engine/ai/WingmanPhraseMatch.cpp:92-126 | the hyphenated order is heard as the two-word cue |
| WingmanPhrase.ScorePhrase | engine/ai/WingmanPhraseMatch.cpp:195-199 | zero for an empty or over-long transcript, else the command's score |
| WingmanPhrase.HeardIffSpellable | engine/ai/WingmanPhraseMatch.cpp:92-126 | a cue can be matched in some transcript exactly when it has only lower-case letters, digits and spaces |
| WingmanPhrase.DontShootIsNeverHeard | engine/ai/WingmanPhraseMatch.cpp:78-79 | the cue with an apostrophe never matches, whatever is said |
| WingmanPhrase.CuesArePhrases | engine/ai/WingmanPhraseMatch.cpp:28-90 | every cue of every table is single-spaced words, which the masking argument needs |
| WingmanPhrase.ParseInvertsName | engine/ai/WingmanCommand.h:74-81 | a name parses to a command exactly when it is that command's name |
| WingmanPhrase.ParseCommand | engine/ai/WingmanCommand.h:74-81 | the loop computes it |
| IntentPrompt.OneOpeningOneClosing | engine/ai/ChatIntentBridge.cpp:79-109 | for every utterance the prompt has exactly one <<< and exactly one >>>, the second later |
| IntentPrompt.CallIsContained | engine/ai/ChatIntentBridge.cpp:79-102 | the text between the markers is at most 240 bytes, without control characters or angle runs |
| IntentPrompt.CallIsFaithful | engine/ai/ChatIntentBridge.cpp:79-102 | an utterance is carried through unchanged if and only if it is already within those rules |
| IntentPrompt.CallKeepsTheRest | engine/ai/ChatIntentBridge.cpp:79-102 | the first 240 bytes are carried one for one; one that is not carried as it is has become a space, being a control character or one of three equal angle brackets in a row |
| IntentPrompt.BuildIntentUserPrompt | engine/ai/ChatIntentBridge.cpp:79-109 | the loops build that prompt |
| IntentPrompt.Scrub | engine/ai/ChatIntentBridge.cpp:97-102 | the in-place scrub blanks angle runs three at a time from the left |
| IntentGate.GateFailsClosed | engine/ai/ChatIntentBridge.cpp:111-176 | a command comes out only with no rejection, only of an answer of at most 512 bytes, and only when the answer spells that command's name up to case |
| IntentGate.BareNameAccepted | engine/ai/ChatIntentBridge.cpp:127-154 | a bare name in any casing, with any white space around it, is that command |
| IntentGate.JsonMemberAccepted | engine/ai/ChatIntentBridge.cpp:124-154 | so is any answer whose first "command" key is followed by separators and a quoted value that is the name in any casing with any white space around it, whatever precedes the key or follows the value |
| IntentGate.DeclineIsNotACommand | engine/ai/ChatIntentBridge.cpp:156-161 | the decline sentinel is no command's name and is reported as a decline |
| IntentGate.TooLongIffOver | engine/ai/ChatIntentBridge.cpp:114-118 | too long is the verdict exactly above 512 bytes |
| IntentGate.BlankIsNotJson | engine/ai/ChatIntentBridge.cpp:120-124 | an answer of white space is not JSON |
| IntentGate.BareWordIsJudged | engine/ai/ChatIntentBridge.cpp:151-172 | a bare word in any casing is a decline if it is the sentinel, and outside the grammar if it is no command's name |
| IntentGate.ObjectWithoutFieldIsMissing | engine/ai/ChatIntentBridge.cpp:147-150 | an object without a command key is missing the field |
| IntentGate.KeyWithoutValueIsMissing | engine/ai/ChatIntentBridge.cpp:130-146 | so is an answer whose first command key no quoted value follows |
| IntentGate.ValidateIntentResponse | engine/ai/ChatIntentBridge.cpp:111-176 | the cursor loops compute the gate's verdict |
| IntentGate.Trim | engine/util/Str.h:23-30 | white space is dropped from both ends |
| Threat.DesignateBoresightTarget | engine/ai/Threat.cpp:41-94 | by index or by full scan, the id returned is that of a qualifying live hostile no other outranks by angle then range, and invalid exactly when none qualifies |
| Threat.IndexAgreesWithScan | engine/ai/Threat.cpp:76-93 | any two such answers have equal angle and range, so the index path and the scan agree in rank |
| Threat.NearestHostileWithin | engine/ai/Threat.cpp:148-186 | the same for the nearest hostile |
| Threat.NearestAgrees | engine/ai/Threat.cpp:165-186 | and any two answers are at equal distance, ties being broken by visiting order |
| Threat.DesignateFromContacts | engine/ai/Threat.cpp:96-146 | the first locked contact nearest the nose when its id is usable, else the first seen one nearest the nose, else no one |
| IncludeSeam.PlatformHeaderThirdParty | tools/lint_backend_seam.py:72-89 | on any include graph, cycles and missing files included, the walk ends and finds exactly the third-party headers included by some existing header reachable from its argument |
| IncludeSeam.Walk.ThirdParty | tools/lint_backend_seam.py:72-89 | one recursive call adds to the shared set only headers it reaches, closes them under inclusion and finds exactly theirs |
| IncludeSeam.ClosedIsReachable | tools/lint_backend_seam.py:72-89 | a closed set reached from its root is the reachable set |
| LogRing.FileLogger.CopyLastLines | platform/FileLogger.cpp:187-209 | after any calls, exactly the last min(asked, 256, accepted) accepted entries, oldest first, across every wrap; the rest of the buffer untouched |
| LogRing.FileLogger.Log | platform/FileLogger.cpp:130-163 | appends the entry, as stored, to the accepted ones, or nothing below the level |
| LogRing.FileLogger.SetMinLevel | platform/FileLogger.cpp:172-175 | changes the level for later calls only |
| LogRing.RaisingLevelsDropsEntries | platform/FileLogger.cpp:130-133 | over any calls, setting levels higher only leaves entries out: the accepted ones are a subsequence of what would have been accepted |
| LogRing.LevelsLetThrough | platform/FileLogger.cpp:130-133 | at each minimum level, exactly which severities get through |
| LogRing.WriteNext | platform/FileLogger.cpp:135-157 | overwriting the oldest slot keeps the other entries readable |
| LogRing.StoredFile | platform/FileLogger.cpp:138-149 | a path keeps its last 255 bytes, or everything when it is shorter |
| LogRing.StoredMessage | platform/FileLogger.cpp:151-157 | a message keeps its first 511 bytes, or everything when it is shorter |
| Utf8.DecodeInvertsEncode | platform/Utf8Decode.h:12-46 | decoding the section 3 encoding of any code points gives one result each: basic-plane values unchanged, each larger one a single U+FFFD |
| Utf8.NextUtf8Codepoint | platform/Utf8Decode.h:12-34 | the decoder stays in the buffer, always advances, and returns what the specification says, for any bytes |
| Utf8.BadBytesBecomeOne | platform/Utf8Decode.h:12-34 | bytes that start no sequence of up to three octets become one U+FFFD together with the continuation bytes after them |
| Utf8.MasksAreRanges | platform/Utf8Decode.h:17-26 | the bit masks on a byte select the ranges the decoder is stated with |
| Utf8.CountUtf8Codepoints | platform/Utf8Decode.h:38-46 | the count is the number of decoded code points, for any bytes |
| Formation.StationsKeepTheirDistance | engine/ai/FormationController.cpp:14-24 | any two distinct slots are at least min(4 lateral^2, lateral^2 + aft^2 + vertical^2) apart, squared, for any lead pose with an orthonormal basis |
| Formation.ClosestIsAttained | engine/ai/FormationController.cpp:14-24 | the first three members attain it, so it is the exact minimum |
| Formation.SlotsByPair | engine/ai/FormationController.cpp:14-24 | slot 2k is k + 1 lateral spacings to the lead's right, slot 2k + 1 as many to its left, both k + 1 aft spacings behind and k + 1 vertical spacings up |
| Formation.SlotPointIsBesideLead | engine/ai/FormationController.cpp:30-56 | a slot's point is the lead's, moved by the offset along the lead's right, forward and up |
| Formation.SharedIffNoLateralSpacing | engine/ai/FormationController.cpp:14-24 | no two members share a station if and only if the lateral spacing is not zero |
| Formation.StationDistance | engine/ai/FormationController.cpp:30-56 | the distance of two stations is that of their offsets in the lead's frame |

## Left out

- Distances, AGL, speeds and altitudes: real numbers the environment supplies at each step; geodesy and steering
  are not modelled, and neither is floating-point rounding.
- Ticks: natural numbers that do not overflow; elapsed time is the 64-bit difference, wrap-around included.
- The service's mutex: each call is one atomic step. Which airport is nearest a flight is a parameter.
- Scramble, hold-short poses, status text, speaker names and the wording of radio lines: no sequencing in them.
- The pattern-circling child and the controller handed to after climb-out: their commands are the environment's.
- The planet radius passed on to child controllers, and warnings printed for unknown states.
- Built-in conditions other than the clearance and altitude ones: range and sensor tests with no state.
- Spawning: a fleet's machines exist from the start of a run, because their creation is the spawn code's.
- Node transforms from translation, rotation and scale: a node's local matrix is given. Variant tags are given as
  parsed; matrix entries are reals.
- Tile bounds are any function of the tile. That the sampled, padded bounds nest is numeric code; the selection
  theorem says exactly what must hold of them instead. A face outside 0..5, an error in the source, is
  just another face.
- Process creation, standard input, signals and shutdown: only the line queue. A subprocess that is not running
  answers nothing, with no queue to model.
- Liveness of the line queue: fairness of the scheduler and of wake-ups is not modelled.
- Character classes are ASCII, as in the C locale; a byte is one character. A transcript's bytes above 127 are
  separators, as there.
- The system prompt and the test for whether a chat line addresses the flight: fixed text and a substring scan.
- Target designation: the bearing of an offset is a parameter bounded as a cosine, positions are reals, and a degenerate look
  axis is resolved before the model starts. That an index query visits every entity in range is its contract.
- Include scanning by regular expression and the checks built on the include walk: the graph is given.
- The log file, timestamps and retention; a copy taken in the middle of a write. The head count stays below 2^31,
  beyond which the slot computation is no longer one.
- Rejection of overlong and surrogate UTF-8 forms: the code accepts them, so nothing is claimed.
- The slot basis is given as orthonormal; ranks are exact, where the code rounds them to single precision.
