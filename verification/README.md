# Elevator controllers, their protocol, and the exercises around them

A Dafny model of five components of an elevator project, with proofs of what they guarantee over whole runs. Floors,
elevators, nodes, threads and buffer sizes are arbitrary.

* **Hall request assigner** (D). Simulates a fleet of elevators, always moving the one with the earliest clock, until
  every hall request has an owner. `HallRequests` says what each move and the result are; `Simulation` defines runs as
  sequences of loop states in which the sort may leave equal clocks in any order; `SimulationInvariant`,
  `SimulationTermination`, `SimulationCalm`, `SimulationEmptyId`, `SimulationClocks` and `SimulationResult` prove what
  all runs satisfy; `SimulationStart`, `SimulationMoves` and `SimulationShortcut` say what each stage means in terms of
  who waits where; `HallRequestAssigner` is the program on arrays, proved to follow such a run and to end.
* **Single elevator** (Go). `SingleElevator` has the three event handlers as methods of a class, each equal to a
  function of the old state; `SingleElevatorHandlers` says what each event means in terms of who waits where;
  `SingleElevatorRuns` and `SingleElevatorService` are about every interleaving of presses, arrivals and timeouts.
* **Distributed hall orders** (Go). `Orders`, `PeerOrder` and `SyncOutcome` are one order at one node, `Worldviews` and
  `WorldviewEvents` whole worldviews, `SyncNode` and `WorldviewNode` the loops and the node with its map of worldviews,
  `OrderCells`, `OrderPending` and `OrderRounds` one order across all alive nodes, `OrderProtocol` the whole system,
  and `OrderAgreement`, `TwoOutstanding` and `OrderConvergence` its runs.
* **Priority resource** (D). `PriorityResource` has one program counter per user and one step per statement, as
  functions and as methods on the fields; `PriorityResourceRuns` is about every interleaving.
* **Bounded buffer** (C). `Rings` (in `RingBuffer.dfy`) is the ring, `BoundedBuffer` the semaphores and the mutex around it.

`Totals` holds sums over sequences. `dafny verify dfyconfig.toml` checks everything.

## Findings

* The empty string marks an unassigned request, so an elevator with that id never takes anything for good. Alone, or
  beside others if doors take no time, it keeps the assigner running for ever on some inputs; in all other cases the
  loop ends on every input (`LoopEndsExactly`).
* The order in which a Go map yields the peers can decide the outcome of a synchronisation. The combinations of states
  in which it does are the predicate `Tangled`; outside them, and for orders that are marked, it never does
  (`PeerOrderIsIrrelevantExactly`).
* The loop that keeps a node's worldview and the routine that synchronises it are joined by two channels of one place
  each, so that up to three results can be outstanding: handed over as views, being computed, and computed. With at
  most one, the alive nodes agree in every run; with two they need not (`AgreementExactly`). A node can then merge, one
  after the other, two results that belong to the previous life of an order, and drop the order that another node has
  confirmed in the meantime.

## Conventions

* Durations are integers, clocks count microseconds. Configuration values are fields of the datatype `Config`.
* A library sort is any permutation in ascending clock order; the array program sorts by insertion.
* Where a lemma about runs requires an invariant next to a start state, the invariant is the precondition of the run
  function, and `StartInv` derives it from the start state.
* A map traversal is a sequence with every key exactly once; a method that ranges over a map promises its result for
  some traversal.
* In the system, a node takes a snapshot of the current worldviews when it passes its views on, and merges its results
  in that order, each at any later time; a result that is replaced in a channel by a newer one is dropped.

## Model

| member | source | states |
|---|---|---|
| ElevatorAlgorithm.ClearReqsAtFloor | Test/cost_fns/hall_request_assigner/elevator_algorithm.d:65-114 | Clears, in both modes, exactly the calls the mode and the direction of the snapshot select; reports each once; every other floor and field is untouched |
| ElevatorAlgorithm.ClearInDirn | Test/cost_fns/hall_request_assigner/elevator_algorithm.d:90-109 | The directional part of the same, after the cab call: the opposite hall call goes only when nothing is left ahead |
| ElevatorAlgorithm.StopClearsExactly | Test/cost_fns/hall_request_assigner/elevator_algorithm.d:27-114 | An elevator that has to stop clears something if and only if there is a call at its floor and it is not, in the directional mode, leaving an end floor past the opposite hall call with more calls ahead |
| ElevatorAlgorithm.StopClearsSomething | Test/cost_fns/hall_request_assigner/elevator_algorithm.d:27-114 | Away from the end floor it is leaving, an elevator with something at or ahead of its floor never stops without clearing a call; neither does one, anywhere, that chooses to serve its floor |
| HallRequests.SortedIdsAscend | Test/cost_fns/hall_request_assigner/optimal_hall_requests.d:148-152 | The elevators start in ascending order of their ids, which fixes the order of the initial moves and the starting clocks |
| HallRequests.LexLeqExactly | Test/cost_fns/hall_request_assigner/optimal_hall_requests.d:150 | The order of the ids is the dictionary order: after a common beginning, one ends or has the smaller character |
| HallRequestAssigner.PerformInitialMove | Test/cost_fns/hall_request_assigner/optimal_hall_requests.d:160-182 | In place: the state and requests become those of the initial move, including that a later elevator takes over an active request at its floor from an earlier one, and that only the one elevator changes |
| SimulationStart.StartExactly | Test/cost_fns/hall_request_assigner/optimal_hall_requests.d:160-182 | What the loop starts from: every elevator with its clock and position after the initial move; each active request at a floor where elevators stand owned by the last of them in id order, every other one by nobody |
| HallRequestAssigner.OnClearRequest | Test/cost_fns/hall_request_assigner/optimal_hall_requests.d:189-197 | The clearing callback assigns the hall request to the mover, or drops its cab call, at its floor and nowhere else |
| HallRequestAssigner.PerformSingleMove | Test/cost_fns/hall_request_assigner/optimal_hall_requests.d:184-234 | In place: the state and requests become those of one simulated move; clearing uses the direction from before the new one was chosen |
| SimulationMoves.StopsExactly | Test/cost_fns/hall_request_assigner/optimal_hall_requests.d:199-211 | A moving elevator stops if and only if its passengers or somebody who goes its way wait at the floor, nothing is pending ahead, it is at an end floor, or it has no direction; direction, behaviour, clock, and what stays untouched on the way are stated for both cases |
| SimulationMoves.DepartsExactly | Test/cost_fns/hall_request_assigner/optimal_hall_requests.d:212-230 | A standing elevator goes on in its direction while somebody waits there, serves its own floor before it turns, and idles only if nobody waits anywhere; direction, behaviour and clock are stated for each case |
| SimulationMoves.ServesExactly | Test/cost_fns/hall_request_assigner/elevator_algorithm.d:65-114 | A stop drops the elevator's cab call and takes, of the unassigned calls at its floor only, all in the one mode; in the other the one in its direction, and the opposite one only if it has nothing to go on for |
| HallRequestAssigner.UnvisitedAreImmediatelyAssignable | Test/cost_fns/hall_request_assigner/optimal_hall_requests.d:237-254 | True exactly if no cab calls are left, no floor has two active hall requests, and every unassigned one has a free elevator at its floor |
| HallRequestAssigner.AssignImmediate | Test/cost_fns/hall_request_assigner/optimal_hall_requests.d:256-269 | In place: offers every unassigned request, floor by floor and call by call, to every elevator in turn |
| SimulationShortcut.ShortcutExactly | Test/cost_fns/hall_request_assigner/optimal_hall_requests.d:256-269 | Whatever is left, each unassigned request goes to the first elevator in clock order with a non-empty id that stands free at its floor, which pays one door for each; nothing else changes |
| SimulationResult.ShortcutIsLocal | Test/cost_fns/hall_request_assigner/optimal_hall_requests.d:236-269 | The shortcut assigns exactly the unassigned requests, each to an elevator without cab calls that stands at its floor, and leaves every other request alone |
| SimulationResult.AssignBelowSettles | Test/cost_fns/hall_request_assigner/optimal_hall_requests.d:256-269 | After the shortcut has dealt with the floors below f, every unassigned request there has an owner standing at its floor, and the elevators differ from before only in their clocks |
| HallRequestAssigner.SortByClock | Test/cost_fns/hall_request_assigner/optimal_hall_requests.d:48 | The array becomes some permutation of itself in ascending clock order |
| HallRequestAssigner.Iterate | Test/cost_fns/hall_request_assigner/optimal_hall_requests.d:47-70 | One pass of the loop: sort, test both exits, then either finish, with the shortcut applied if it was available, or move the earliest elevator |
| SimulationMoves.ContinuesExactly | Test/cost_fns/hall_request_assigner/optimal_hall_requests.d:54-66 | The loop goes on if and only if a request is unassigned, and a cab call is left, or both calls of a floor are active, or an unassigned request has no elevator at its floor |
| HallRequestAssigner.PublishResult | Test/cost_fns/hall_request_assigner/optimal_hall_requests.d:73-94 | The published rows are those of the assignment: cab calls of the input when configured, and each active hall request at its owner only |
| SimulationResult.PublishedExactly | Test/cost_fns/hall_request_assigner/optimal_hall_requests.d:73-94 | A hall call is published to an elevator if and only if it is active and that elevator took it; the cab column, when configured, is the input's |
| HallRequestAssigner.OptimalHallRequests | Test/cost_fns/hall_request_assigner/optimal_hall_requests.d:16-104 | The whole assigner on arrays, for every valid input on which the loop ends: its result gives each call to exactly the elevator that took it in a complete simulation run, has the right shape, and is an exact partition of the active hall requests |
| SimulationEmptyId.EndsSuffices | Test/cost_fns/hall_request_assigner/optimal_hall_requests.d:47-70 | If no id is empty, or one is not and doors take time, all runs on the input are bounded |
| Simulation.MoveIsLocal | Test/cost_fns/hall_request_assigner/optimal_hall_requests.d:184-234 | A move takes unassigned requests only at the mover's floor, only for the mover, and only without leaving; cab calls vanish only there; the elevator stays in the shaft |
| Simulation.MoveIsNeverIdle | Test/cost_fns/hall_request_assigner/optimal_hall_requests.d:199-231 | With anything left to serve, the idle branch is not taken, and the clock advances by exactly the door or the travel duration |
| Simulation.MoveMakesProgress | Test/cost_fns/hall_request_assigner/optimal_hall_requests.d:184-234 | Every move either serves a call, or changes no call and brings the elevator strictly closer by a distance that allows for one reversal |
| SimulationInvariant.StartInv | Test/cost_fns/hall_request_assigner/optimal_hall_requests.d:36-45 | The invariant holds after the initial moves: every elevator once, on a valid floor, every owner real, every inactive request unowned |
| SimulationInvariant.NextKeeps | Test/cost_fns/hall_request_assigner/optimal_hall_requests.d:47-70 | Every iteration keeps the invariant, whichever order the sort leaves equal clocks in |
| SimulationInvariant.ElevatorsStayInTheShaft | Test/cost_fns/hall_request_assigner/optimal_hall_requests.d:184-234 | In every state of every run all elevators are on valid floors |
| SimulationInvariant.EveryStopServesWhoIsThere | Test/cost_fns/hall_request_assigner/optimal_hall_requests.d:199-211 | In every state of every run, a moving elevator that has to stop clears a call if and only if there is one at its floor, in both modes; the only empty stops are those with no call left there |
| SimulationInvariant.IterationIsLocal | Test/cost_fns/hall_request_assigner/optimal_hall_requests.d:47-70 | An iteration changes the earliest elevator only, assigns only at the floor where it stands, and never leaves it idle |
| SimulationInvariant.AssignmentsAreFinal | Test/cost_fns/hall_request_assigner/optimal_hall_requests.d:184-234 | Once a request has an owner, no later iteration of the run changes it |
| SimulationTermination.IterationShrinksMeasure | Test/cost_fns/hall_request_assigner/optimal_hall_requests.d:47-70 | Every iteration that moves an elevator with a non-empty id strictly lowers the lexicographic measure of outstanding calls and total distance |
| SimulationTermination.NamelessMoveChangesNothing | Test/cost_fns/hall_request_assigner/optimal_hall_requests.d:120-122 | A move of an elevator whose id is the empty string leaves the measure where it is: what it takes still counts as unassigned |
| SimulationTermination.LoopIsBounded | Test/cost_fns/hall_request_assigner/optimal_hall_requests.d:47-70 | With non-empty ids the loop makes at most (calls + 1) * (elevators * (floors + 1) + 1) iterations, for any durations, both modes, and any choice among equal clocks |
| SimulationCalm.NamelessMoveCalms | Test/cost_fns/hall_request_assigner/optimal_hall_requests.d:184-234 | An elevator whose id is the empty string settles: each move opens a door without unsettling it, or travels and leaves it strictly fewer floors to travel |
| SimulationEmptyId.OneNamedElevatorSuffices | Test/cost_fns/hall_request_assigner/optimal_hall_requests.d:47-70 | If doors take time, the loop ends on every input that has at least one non-empty id, even if the empty string is an id too, and whatever travelling takes |
| SimulationEmptyId.EmptyIdAloneNeverEnds | Test/cost_fns/hall_request_assigner/optimal_hall_requests.d:120-122 | With the empty string as the only id, every input with both calls active at one floor has runs of every length, for any durations |
| SimulationEmptyId.FreeDoorsNeverEnd | Test/cost_fns/hall_request_assigner/optimal_hall_requests.d:47-70 | If doors take no time and the empty string is an id, there is an input over the same ids that has runs of every length |
| SimulationEmptyId.LoopEndsExactly | Test/cost_fns/hall_request_assigner/optimal_hall_requests.d:47-70 | For any configuration and any number of floors, the loop ends on every input over a set of ids if and only if the empty string is not among them, or it is not the only one and doors take time |
| SimulationClocks.IterationKeepsSpread | Test/cost_fns/hall_request_assigner/optimal_hall_requests.d:47-70 | One iteration keeps any spread of clocks that is at least one door and one travel duration |
| SimulationClocks.SpreadIsBounded | Test/cost_fns/hall_request_assigner/optimal_hall_requests.d:47-70 | Every bound that covers the spread of the clocks at the start and one step covers it in every state of the run |
| SimulationClocks.ClocksNeverDriftApart | Test/cost_fns/hall_request_assigner/optimal_hall_requests.d:47-70 | In every run, no two clocks are ever further apart than the fastest and the slowest are after the initial moves, or than one door or travel duration if that is more |
| SimulationClocks.ClocksStayDistinct | Test/cost_fns/hall_request_assigner/optimal_hall_requests.d:148-156 | With at most 500 elevators no two clocks are ever equal: starts are i microseconds and every increment is a multiple of 500 microseconds |
| SimulationClocks.SortIsUnique | Test/cost_fns/hall_request_assigner/optimal_hall_requests.d:48 | Two sorted permutations of states with distinct clocks are the same sequence |
| SimulationClocks.OutcomeIsDetermined | Test/cost_fns/hall_request_assigner/optimal_hall_requests.d:47-70 | With at most 500 elevators any two complete runs on the same input are identical, although the sort is unstable |
| SimulationResult.PublishedIsPartition | Test/cost_fns/hall_request_assigner/optimal_hall_requests.d:73-94 | If every active request has an owner among the input's elevators, the published result gives it to that elevator only and inactive ones to nobody |
| SimulationResult.OutcomeIsPartition | Test/cost_fns/hall_request_assigner/optimal_hall_requests.d:54-94 | Every complete run, through either exit, publishes an exact partition of the active hall requests |
| SingleElevator.Elevator.IsRequestedAbove | Test/Heis_go/requests.go:4-13 | The counting loop finds a request strictly above exactly if there is one |
| SingleElevator.Elevator.IsRequestedBelow | Test/Heis_go/requests.go:16-25 | The counting loop finds a request strictly below exactly if there is one |
| SingleElevator.Elevator.ClearCalls | Test/Heis_go/requests.go:105-127 | In place: only the current floor changes, by the rule of the direction |
| SingleElevator.Elevator.OnInitBetweenFloors | Test/Heis_go/fsm.go:69-73 | In place: the car homes downwards, and nothing else changes |
| SingleElevator.Elevator.OnRequestButtonPress | Test/Heis_go/fsm.go:76-115 | In place: the whole new state, timer, lamps, door lamp and motor included, is that of a press |
| SingleElevator.Elevator.OnFloorArrival | Test/Heis_go/fsm.go:118-141 | In place: the whole new state is that of an arrival |
| SingleElevator.Elevator.OnDoorTimeout | Test/Heis_go/fsm.go:144-170 | In place: the whole new state is that of a door timeout |
| SingleElevatorHandlers.UninitializedKnowsNothing | Test/Heis_go/elevator.go:53-64 | Before the first arrival the car is at no floor, rests, has nothing to do, and everything is off |
| SingleElevatorHandlers.HomingOpensDoor | Test/Heis_go/fsm.go:69-141 | Between floors it sets out downwards and opens its door at the first floor it meets |
| SingleElevatorHandlers.OpenDoorAnswersExactly | Test/Heis_go/requests.go:96-102 | A press at an open door is answered by it if and only if the car is at that floor and the call is a cab call, goes the car's way, or the car has no direction; any other press is recorded and lit, and nothing else changes |
| SingleElevatorHandlers.MovingRecordsEveryPress | Test/Heis_go/fsm.go:88-89 | A moving car records every press and goes on as before |
| SingleElevatorHandlers.IdleGoesStraightThere | Test/Heis_go/fsm.go:91-108 | An idle car opens its door for a press at its floor, and otherwise sets out straight for the floor of the press |
| SingleElevatorHandlers.UnrecordedPressIsAnswered | Test/Heis_go/fsm.go:76-115 | A press that is not recorded finds the door open at its floor, on a car that does not go the opposite way |
| SingleElevatorHandlers.ArrivalStopsExactly | Test/Heis_go/requests.go:76-93 | A moving car stops if and only if somebody wants to get off there or to go its way, or nobody waits ahead |
| SingleElevatorHandlers.ServesExactly | Test/Heis_go/requests.go:105-127 | What is left at a floor that is served: the opposite hall call, if the car has something to go on for; other floors are untouched |
| SingleElevatorHandlers.ArrivalServesExactly | Test/Heis_go/fsm.go:118-141 | An arrival serves its own floor, if the car stops there, and no other |
| SingleElevatorHandlers.TimeoutExactly | Test/Heis_go/requests.go:38-73 | Where a car goes that closes its door, with its whole new state: on while somebody waits ahead, else it reverses for its own floor, else for the other side, else it rests; without a direction it prefers its floor, then up |
| SingleElevatorRuns.HomingEstablishesInv | Test/Heis_go/fsm.go:69-141 | From power-up between floors, after any presses on the way down, the first arrival establishes the invariant |
| SingleElevatorRuns.ArrivalAtRestEstablishesInv | Test/Heis_go/main.go:23-86 | From power-up at a floor the first arrival establishes it as well |
| SingleElevatorRuns.StepKeepsInv | Test/Heis_go/fsm.go:76-170 | Every press, arrival and timeout keeps it: idle means nothing requested and no direction; moving means a request ahead; open means nothing here that the direction would serve |
| SingleElevatorRuns.RunsAreSafe | Test/Heis_go/fsm.go:76-170 | Over every interleaving of events: the car never travels past an end floor, never moves with the door open, an open door always has its timer running, and the lamps show the requests |
| SingleElevatorService.RequestsAreNeverLost | Test/Heis_go/fsm.go:76-170 | A request vanishes only when the car stands at its floor with the door open, appears only by its own press, and a press is recorded or answered at once |
| SingleElevatorService.NoEmptyStops | Test/Heis_go/fsm.go:118-170 | Each time an arrival or a timeout opens the door or keeps it open, at least one pending request is cleared |
| SingleElevatorService.RankFalls | Test/Heis_go/fsm.go:76-170 | The number of floors still to travel for a request falls with each floor and never rises on a press, a timeout or a reversal |
| SingleElevatorService.NobodyStarves | Test/Heis_go/fsm.go:76-170 | A request that is pending throughout a run sees at most 2(N-1) arrivals, whatever is pressed meanwhile |
| SingleElevatorService.WorkShrinks | Test/Heis_go/fsm.go:118-170 | Without presses every event strictly lowers a non-negative amount of work |
| SingleElevatorService.DrainIsBounded | Test/Heis_go/fsm.go:118-170 | So no run without presses is longer than that amount |
| SingleElevatorService.RestsOnlyWhenServed | Test/Heis_go/fsm.go:118-170 | If neither an arrival nor a timeout can come, the car is idle and nothing is requested |
| SingleElevatorService.Drains | Test/Heis_go/fsm.go:118-170 | From every state that satisfies the invariant a run without presses reaches idle with an empty request matrix |
| SyncNode.DegradeByPeers | Project/synchronization/synchronization.go:48-65 | Step 0, peer by peer in any map order: a confirmed order is degraded exactly if some alive worldview reports its owner gone |
| SyncNode.FollowPeers | Project/synchronization/synchronization.go:67-90 | Step 1, peer by peer in some map order, is the cell-wise fold over the alive peers in that order |
| SyncNode.AdvanceCell | Project/synchronization/synchronization.go:92-151 | Steps 2 and 3 for one cell, including that a state reached only in this round is not confirmed in it |
| SyncNode.SyncHallOrders | Project/synchronization/synchronization.go:42-154 | The four nested-loop steps equal the cell-wise specification for one traversal of the peers, for any number of peers and floors |
| SyncOutcome.MarkSpreads | Project/synchronization/synchronization.go:48-65 | A node that has an order confirmed and sees it marked by any alive node ends with it marked, and does not confirm it again in that round |
| SyncOutcome.MarkedIsRevivedExactly | Project/synchronization/synchronization.go:92-122 | A marked order is confirmed again, without an owner, if and only if all alive nodes have it Unconfirmed or Confirmed |
| SyncOutcome.SyncExactly | Project/synchronization/synchronization.go:42-154 | For every unmarked order in every view that is not tangled, the result of all four steps, owner included, as a table over the states seen |
| Orders.DegradeIgnoresOrder | Project/synchronization/synchronization.go:48-65 | Step 0 gives the same result for every order of the peers |
| Orders.FollowingInventsNothing | Project/synchronization/synchronization.go:67-90 | Following peers never changes the owner and never reaches a state nobody has; an order marked peerDied is not moved at all |
| Orders.FollowReachesFurthest | Project/synchronization/synchronization.go:67-90 | Among Unconfirmed, Confirmed and DeleteProposed, and among None and Unconfirmed, a node ends at the furthest state seen |
| Orders.FollowReachesNone | Project/synchronization/synchronization.go:67-90 | Among DeleteProposed and None it ends at None as soon as one None is seen |
| Orders.FollowClosedForm | Project/synchronization/synchronization.go:67-90 | Closed form of step 1 for every view that is not tangled: the outcome is a function of the own state and of the states seen |
| PeerOrder.UntangledIsIndependent | Project/synchronization/synchronization.go:42-154 | In a view that is not tangled, or for a node that follows nobody, the whole synchronisation gives the same order for every order of the peers |
| PeerOrder.OrderMatters | Project/synchronization/synchronization.go:42-154 | In a tangled view, for an order that is neither marked nor gets marked by step 0, two orders of the same peers end differently after all four steps |
| PeerOrder.PeerOrderIsIrrelevantExactly | Project/synchronization/synchronization.go:42-154 | For every own order and any peers: the peer order is irrelevant to the result of the whole synchronisation if and only if the own order is marked or gets marked by step 0, or the view is not tangled |
| WorldviewNode.MarkPeerDead | Project/worldview/worldview.go:140-153 | Exactly the confirmed orders of the lost node become Unconfirmed and marked peerDied |
| WorldviewNode.MergeSynced | Project/worldview/worldview.go:100-127 | Cell by cell the result of a synchronisation is accepted or rejected and a local owner kept |
| SyncOutcome.MergeExactly | Project/worldview/worldview.go:65-127 | A result that advances the order along its cycle, or marks it, is taken as it is, unless it stems from before the owner failed; one in the same state leaves an owner in place; everything else is rejected |
| SyncOutcome.FreshIsTakenOverExactly | Project/worldview/worldview.go:65-127 | A result that is merged at once is taken over completely, if and only if it does not drop what the node has confirmed |
| WorldviewNode.UpdateOwnerIDs | Project/worldview/worldview.go:209-226 | Exactly the confirmed orders without a living owner get one of the elevators the assignment names, whichever the map yields first |
| WorldviewEvents.AssignmentExactly | Project/worldview/worldview.go:209-226 | An order is given to an elevator the assignment names if and only if it is confirmed, has no living owner and some elevator is named; all other orders, and all states, stay as they are |
| WorldviewNode.UpdateWithElevatorState | Project/worldview/worldview.go:157-206 | The new state is stored, the own cab call at the floor is dropped, and exactly the served confirmed orders are proposed for deletion |
| WorldviewEvents.ReportExactly | Project/worldview/worldview.go:157-206 | A report proposes an order for deletion if and only if it is confirmed, the car is on a valid floor, the door is open at the order's floor or was until now, the car no longer has the call, and it had it or owns the order; in an error state the node's other confirmed orders are marked |
| WorldviewEvents.ReportServesCab | Project/worldview/worldview.go:167-173 | A report drops the node's own cab call at its floor and no other one of anybody |
| WorldviewEvents.ReportIsStored | Project/worldview/worldview.go:373-388 | A report becomes the node's state and sets or resets its error state |
| WorldviewNode.Node.OnElevatorState | Project/worldview/worldview.go:373-388 | In place: only the node's own worldview changes, by the report and, in an error state, by giving up its orders |
| WorldviewNode.Node.OnSynced | Project/worldview/worldview.go:390-394 | In place: only the node's own hall orders change, to the merge |
| WorldviewNode.Node.OnPeerWorldview | Project/worldview/worldview.go:396-411 | In place: the peer's worldview is stored, its cab calls copied, its orders given up if it reports an error; the node's own worldview off the network is ignored |
| WorldviewEvents.PeerExactly | Project/worldview/worldview.go:396-411 | A peer's worldview is stored; of the own one only the copy of the peer's cab calls changes, and, if the peer reports an error, its confirmed orders get marked |
| WorldviewEvents.OwnEchoIsIgnored | Project/worldview/worldview.go:396-399 | The node's own worldview off the network changes nothing |
| WorldviewNode.Node.OnLostPeer | Project/worldview/worldview.go:465-480 | In place: the peer is marked dead, even if it has never been heard of, and its orders are given up |
| WorldviewEvents.LossExactly | Project/worldview/worldview.go:465-480 | Exactly the confirmed orders of the lost node get marked, in the own worldview only, and it counts as dead from then on |
| WorldviewEvents.OwnLossIsIgnored | Project/worldview/worldview.go:465-468 | The loss of the node itself changes no worldview |
| WorldviewNode.Node.OnHallButton | Project/worldview/worldview.go:436-442 | In place: a press counts only with network, only at a valid floor, and only if the order does not exist yet |
| WorldviewEvents.HallPressExactly | Project/worldview/worldview.go:495-512 | A press creates the one order if it does not exist, and changes nothing else |
| WorldviewNode.Node.OnAssignment | Project/worldview/worldview.go:450-456 | In place: the node's hall orders get owners from the assignment, nothing else changes |
| OrderCells.SyncMoveKeepsAgreement | Project/synchronization/synchronization.go:42-154 | With up-to-date views a node newly confirms an order only if no alive node has it as None, and newly drops it only if no alive node has it confirmed |
| OrderCells.LocalMoveKeepsAgreement | Project/worldview/worldview.go:138-226 | The same of presses, services, degradations and assignments |
| OrderCells.LateMergeKeepsAgreementExactly | Project/worldview/worldview.go:65-127 | Merging any result, of whatever views, keeps agreement if and only if it neither newly confirms an order another alive node has as None, nor drops one another alive node has confirmed |
| OrderPending.LocalMoveKeepsWillAgree | Project/worldview/worldview.go:138-226 | The invariant that the alive nodes agree, and will whichever of their results, one at most for each, are merged in whatever order, is kept by a press, a service, a degradation and an assignment |
| OrderPending.FreshResult | Project/synchronization/synchronization.go:42-154 | What a node makes of current views confirms an order only if nobody lacks it, and drops one only if nobody has confirmed it, and says why somebody else's result cannot contradict it |
| OrderPending.SnapshotKeepsWillAgree | Project/synchronization/synchronization.go:42-154 | The invariant is kept by a snapshot of the current views at a node with nothing outstanding |
| OrderPending.MergeKeepsWillAgree | Project/worldview/worldview.go:65-127 | The invariant is kept by merging an outstanding result, however much later |
| OrderPending.CopyKeepsWillAgree | Project/worldview/worldview.go:36-57 | The invariant is kept by a node that starts up or reconnects with the orders of an alive node and nothing outstanding |
| OrderCells.NodeMoveKeepsWellFormed | Project/worldview/worldview.go:65-226 | Under arbitrarily stale results, None implies no owner and peerDied implies Unconfirmed, after every step |
| OrderCells.ConfirmedOwnerIsStable | Project/worldview/worldview.go:65-127 | Whatever a node does, with arbitrarily stale results, a confirmed order with a real owner stays as it is, or leaves to DeleteProposed or to Unconfirmed and peerDied |
| OrderCells.OwnerIsStable | Project/worldview/worldview.go:65-127 | Over whole histories, a real owner is never replaced while the order stays confirmed |
| OrderCells.HistoryIsWellFormed | Project/worldview/worldview.go:65-226 | Every order in every such history is well formed |
| OrderCells.RisingSync | Project/synchronization/synchronization.go:67-127 | A synchronising node joins an order that has been called for and confirms it once nobody is left out; the situation is kept |
| OrderCells.FallingSync | Project/synchronization/synchronization.go:67-151 | A synchronising node joins the deletion of a served order and drops it once everybody has; the situation is kept |
| OrderProtocol.SyncedWithIsSyncedOrders | Project/synchronization/synchronization.go:42-154 | The imperative synchronisation can only produce the orders the system model steps to |
| OrderProtocol.FreshOrdersAt | Project/synchronization/synchronization.go:42-154 | What a node makes of whole current worldviews is, at each cell, what it makes of the alive nodes' orders |
| OrderProtocol.SyncIsSnapshotAndMerge | Project/synchronization/synchronization.go:156-174 | A synchronisation at once is a snapshot followed by the merge of its result |
| OrderProtocol.SyncIsSyncMove | Project/synchronization/synchronization.go:42-154 | With up-to-date views the synchronisation of whole worldviews is, at each cell, a synchronisation of that order |
| OrderProtocol.LocalEventsAreLocal | Project/worldview/worldview.go:371-456 | Every event of the worldview loop but the stages of a synchronisation is, at each cell, a press, a service, a degradation or an assignment |
| OrderProtocol.LateMergeIsStaleMove | Project/worldview/worldview.go:390-394 | Merging what was made of arbitrarily old worldviews is, at each cell, one of the stale moves that the owner stability is about |
| OrderProtocol.AnyMergeKeepsAgreementExactly | Project/worldview/worldview.go:100-127 | Merging any orders, as a node with outdated entries of its peers may, keeps the system in agreement on an order if and only if it neither newly confirms it against an alive node without it nor drops it against one that has confirmed it |
| OrderAgreement.EventKeeps | Project/worldview/worldview.go:371-480 | Every event of the system keeps the invariant about orders and outstanding results, at every cell |
| OrderAgreement.NoConfirmedWhileNone | Project/worldview/worldview.go:371-480 | From a system without orders, and with at most one result outstanding at each node, no run ever has an order Confirmed at one alive node and None at another: whatever happens between a snapshot and the merge of its result, in any peer order, and whoever leaves and joins |
| TwoOutstanding.TwoOutstandingDisagree | Project/synchronization/synchronization.go:156-174 | With two outstanding at one node, merged in the order of their snapshots, a run from no orders ends with one node Confirmed and the other None, on any number of floors |
| TwoOutstanding.AgreementExactly | Project/synchronization/synchronization.go:156-174 | The alive nodes agree after every run from no orders with at most k results outstanding at each node if and only if k is at most one |
| OrderConvergence.TwoRoundsConfirm | Project/synchronization/synchronization.go:67-142 | If the alive nodes agree on an order, somebody knows of it, and nobody has it marked or proposed for deletion, then two rounds of syncs in any order confirm it at every alive node |
| OrderConvergence.TwoRoundsDelete | Project/synchronization/synchronization.go:67-142 | If nobody has an order marked, and everybody knows of it and at least one proposes to delete it, or all propose to or have dropped it, then two rounds of syncs in any order remove it at every alive node |
| OrderConvergence.SyncSpreadsMark | Project/synchronization/synchronization.go:48-65 | A node that synchronises and merges gives up an order it has confirmed as soon as any alive node has it marked |
| PriorityResource.StartInv | Ovinger/oving5/semaphore/semaphore.d:28-33 | A fresh resource with any number of users satisfies the invariant |
| PriorityResource.StepKeepsInv | Ovinger/oving5/semaphore/semaphore.d:35-71 | Every statement of every user keeps it, in every interleaving |
| PriorityResource.Resource.constructor | Ovinger/oving5/semaphore/semaphore.d:28-33 | The initial semaphores, counters and flag |
| PriorityResource.Resource.AwaitTurn | Ovinger/oving5/semaphore/semaphore.d:39-44 | In place: one statement of the waiting part of allocate is the step of the model |
| PriorityResource.Resource.Allocate | Ovinger/oving5/semaphore/semaphore.d:35-52 | In place: one statement of the rest of allocate is the step of the model |
| PriorityResource.Resource.Use | Ovinger/oving5/semaphore/semaphore.d:164-170 | In place: the user calls allocate, and later appends its id to the value it got and calls deallocate |
| PriorityResource.Resource.WakeNext | Ovinger/oving5/semaphore/semaphore.d:59-68 | In place: the baton goes to a high-priority waiter if there is one, else to a low-priority one, else the flag is cleared |
| PriorityResource.Resource.Deallocate | Ovinger/oving5/semaphore/semaphore.d:54-71 | In place: one statement of deallocate is the step of the model |
| PriorityResourceRuns.BatonIsUnique | Ovinger/oving5/semaphore/semaphore.d:35-71 | Owners, untaken tokens and woken users add up to one while busy and to none while free; no two own the resource |
| PriorityResourceRuns.MutualExclusion | Ovinger/oving5/semaphore/semaphore.d:35-71 | No run from the start reaches a state with two holders |
| PriorityResourceRuns.NoLostWakeup | Ovinger/oving5/semaphore/semaphore.d:38-45 | While a user waits, somebody owns the resource, or a token is posted and a blocked user of its priority exists to take it |
| PriorityResourceRuns.ReleasePrefersHigh | Ovinger/oving5/semaphore/semaphore.d:57-68 | A release never wakes a low-priority user while a high-priority one is registered |
| PriorityResourceRuns.ReleaseHandsOver | Ovinger/oving5/semaphore/semaphore.d:57-68 | After a release the resource is free if and only if nobody is registered; otherwise exactly one token is posted, for the highest priority waiting |
| PriorityResourceRuns.NoDeadlock | Ovinger/oving5/semaphore/semaphore.d:35-71 | As long as some user is not done, some user can take a step |
| PriorityResourceRuns.RunsEnd | Ovinger/oving5/semaphore/semaphore.d:157-173 | No run takes more than 16 steps per user |
| PriorityResourceRuns.EverybodyIsServedOnce | Ovinger/oving5/semaphore/semaphore.d:123-126 | When nobody can go on, every user is done, has stored its value once, and the list holds their ids in holding order, one for each user |
| PriorityResourceRuns.HolderSeesPredecessor | Ovinger/oving5/semaphore/semaphore.d:49-57 | Each holder works on exactly what its predecessor stored and adds itself |
| PriorityResourceRuns.PriorityInversionIsBounded | Ovinger/oving5/semaphore/semaphore.d:38-68 | While a high-priority user is blocked, at most one low-priority user comes to hold the resource |
| Rings.PushAppends | Ovinger/oving1/Bounded buffer/ringbuf.c:41-46 | Across wrap-around a push appends to the contents |
| Rings.PopRemovesFirst | Ovinger/oving1/Bounded buffer/ringbuf.c:48-55 | Across wrap-around a pop returns and removes the first element |
| Rings.RingBuffer.constructor | Ovinger/oving1/Bounded buffer/ringbuf.c:17-27 | A new ring of the given size is empty |
| Rings.RingBuffer.Push | Ovinger/oving1/Bounded buffer/ringbuf.c:41-46 | In place: buffer, indices and length are those of the push, and the contents grow by the value at the end |
| Rings.RingBuffer.Pop | Ovinger/oving1/Bounded buffer/ringbuf.c:48-55 | In place: buffer, indices and length are those of the pop, and the value is the first of the contents |
| BoundedBuffer.AssertionsHold | Ovinger/oving1/Bounded buffer/ringbuf.c:41-49 | In every reachable state, neither assertion of the ring can fail |
| BoundedBuffer.StepKeepsInv | Ovinger/oving1/Bounded buffer/main.c:43-70 | Every step of any number of producers and consumers keeps the invariant |
| BoundedBuffer.OneThreadInTheRing | Ovinger/oving1/Bounded buffer/main.c:43-70 | At most one thread is between locking and unlocking |
| BoundedBuffer.SemaphoresAddUp | Ovinger/oving1/Bounded buffer/main.c:43-70 | The two semaphores and the threads in flight always add up to the size |
| BoundedBuffer.NothingInHand | Ovinger/oving1/Bounded buffer/main.c:43-70 | When no thread is inside an operation, the values pushes were called with are those that pops have returned and those in the buffer, each as often |
| BoundedBuffer.StepHandsOn | Ovinger/oving1/Bounded buffer/main.c:43-70 | Every step hands each value on unchanged: from the caller of a push to the thread and into the ring, and from the ring to the thread and to the caller of a pop |
| BoundedBuffer.StuckMeansFullOrEmpty | Ovinger/oving1/Bounded buffer/main.c:43-70 | If no thread can go on, all wait to push into a full buffer or all wait to pop from an empty one |
| BoundedBuffer.FirstInFirstOut | Ovinger/oving1/Bounded buffer/main.c:43-70 | In every run the popped values followed by the contents are the pushed values in order, nothing pushed or popped is rewritten, and no value is lost, doubled or changed between a call and the ring or the ring and a return |
| BoundedBuffer.Buffer.constructor | Ovinger/oving1/Bounded buffer/main.c:20-30 | A new buffer starts with all places free |
| BoundedBuffer.Buffer.Start | Ovinger/oving1/Bounded buffer/main.c:43-57 | In place: a thread that is in neither operation begins a push or a pop; nothing else changes |
| BoundedBuffer.Buffer.Push | Ovinger/oving1/Bounded buffer/main.c:43-55 | In place: one statement of a push is the step of the model |
| BoundedBuffer.Buffer.Pop | Ovinger/oving1/Bounded buffer/main.c:57-70 | In place: one statement of a pop is the step of the model |

## Left out

- Sockets, broadcast, peer discovery, JSON, the assigner process and the elevator drivers, lamps beyond their values, printing and logging.
- Stop button and obstruction handling of the single elevator (Test/Heis_go/main.go:33-70): they rewrite direction and requests outside the handlers.
- Project/FSM: its pure part repeats the single elevator's.
- Wall-clock timers: a door timeout is an event that may come whenever the timer is armed.
- OrderAgreement.NoConfirmedWhileNone: snapshots are of the current entries of all peers; for outdated entries there is OrderProtocol.AnyMergeKeepsAgreementExactly. That at most one result is outstanding is necessary, see TwoOutstanding.AgreementExactly.
- OrderPending.CopyKeepsWillAgree: the original may also copy from a peer that is not alive, or whose entry is outdated, and then promises nothing; what a node does while it is away is not modelled.
- Cab buttons, and cab order maps that have not been created yet: they do not touch hall orders.
- Convergence of orders marked peerDied: an adversarial schedule can move them between Confirmed and Unconfirmed for ever.
- Overflow of 64-bit clocks and of counters.
- Condition variable, message passing and Ada variants of the resource, and duplicate copies of the same programs.
- Resource priorities other than 0 and 1: the original indexes arrays of two with them.
- Request matrices of the Go elevator hold 0 and 1; the model uses booleans.
- HallRequestAssigner.OptimalHallRequests: requires that the loop ends on the input, because a method has to; `Ends` is a check beforehand, exact for the ids and the configuration by SimulationEmptyId.LoopEndsExactly.
- SingleElevator.Elevator.OnRequestButtonPress: requires an idle car to be at a floor; before the first arrival the original indexes the request matrix with floor -1 and panics.
- BoundedBuffer.Buffer.Push: the ring operation inside the mutex is one step, which BoundedBuffer.OneThreadInTheRing justifies.
- BoundedBuffer.Buffer.Pop: likewise, the ring operation inside the mutex is one step.
