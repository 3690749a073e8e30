# queuesim in Dafny

A model of the discrete-event queueing engine of queuesim. It has two parts.

**Nodes.** `QueueModel` in `QueueSim2.py` is one M/M/C node. It has
`numCounters` parallel counters and keeps two lists:

- `counter_list`: the completion times of the customers in service, sorted
  with `bisect.insort`;
- `wait_q`: a FIFO of the service durations owed to the waiting customers.

**Network.** `Simulation` in `QueueSim2.py` runs a network of such nodes.

- `tick` visits the nodes in order. The customers leaving a node are admitted
  into the next node at the same instant, before that node ticks.
- `cal` is the event-jumping clock. It moves to one past the integer part of
  the earliest pending event, feeds arrivals into node 0, and finally reports
  L and Lq: the time-averaged number in the system and in the queues.
- `QueueSim5.py` changes the network. Node 0 feeds whichever of nodes 1 and 2
  has the shorter queue, and nodes 1 and 2 feed node 3. Arrivals are two
  superposed streams, `l1` and `l2`.

The Dafny project has seven modules.

| module | file | contents |
|---|---|---|
| `Times` | `times.dfy` | finite times extended with infinity; Python's `min` and `int()` |
| `Bisect` | `bisect.dfy` | `bisect.insort` on a sorted list, proved to keep the list sorted and to insert exactly one element |
| `Occupancy` | `occupancy.dfy` | a node's two lists as a value; admission, departure and refill as functions, with their laws |
| `Queueing` | `queue_model.dfy` | the class `QueueModel` and its statistics; every mutating method is proved to follow a function on the node's value (`NodeEnqueue`, `NodeTick`) |
| `Routing` | `routing.dfy` | one clock pass over the network as a function (`Pass`), its closed form, conservation of customers, both topologies' routing, and the floors the clock relies on |
| `Arrivals` | `arrivals.dfy` | `next_arrival` of both networks as a function on the state of the arrival process, and the arrival loop of `cal` on values (`DueArrivals`) |
| `Network` | `network.dfy` | a whole run on values (`Round`, `RunFrom`, `Run`, `Trials`) and the class `Simulation`: the passes, arrivals, `cal`, `clear_cal` and `simulate`, each proved to end in the value-level function it implements |

Randomness is not modelled as a process; it is supplied as data.

- A node's `k`-th service duration is `service(k)`. This is a function from
  `nat` to non-negative reals, fixed when the node is built; a counter records
  how many durations have been drawn.
- The network's `k`-th inter-arrival gap is `interArrival(k)`. Every gap is at
  least `minGap > 0`. This bound is what makes the arrival loop of `cal` end
  on real-valued times.

The single-stream network of `QueueSim2.py` and the fan-out/fan-in network of
`QueueSim5.py` are one class, `Network.Simulation`, tagged with a
`Routing.Topology`. `Chain` is the base class's routing and `FanOutFanIn` is
the override.

What the model shows about `cal`:

- One round of its outer loop is the function `Network.Round`: the pass at
  `tick`, then one customer for every arrival due by `tick` into node 0, then
  `tick = int(min(next_ev, arrival)) + 1`. The method `CalRound` is proved to
  end in exactly that state, including the new tick and the arrival process.
- The whole loop is `Network.RunFrom`, the whole of `cal` is `Network.Run`
  and `simulate` is `Network.Trials`; the methods `RunClock`, `Cal` and
  `Simulate` are proved to end in their results.
- The clock never goes back. Within one run it cannot stay at the same tick
  for two rounds in a row, so the loop reaches `totalTime`.
- It does not always move on. `tick` folds a destination's `next_ev` right
  after feeding it, before that node ticks, so a stale completion in
  `[tick - 1, tick)` can be folded in, and `int(next_ev) + 1` then equals
  `tick` again (`Network.RoundRepeatsTick` gives such a state). That
  repeated round adds nothing to the integrals (`dt = 0`); only `qmax` and
  `cmax` may catch up with the customers admitted at `tick`. It admits no
  arrival and finds nothing pending before `tick`, so the next round moves
  on.
- Customers are conserved. Over a round, over the loop and over the whole of
  `cal`, the customers in the nodes at the end plus those that left the last
  node equal the customers at the start plus those admitted from the arrival
  process (`Network.RoundConserves`, `Network.RunFromConserves`,
  `Network.RunConserves`). After `clear_cal` the start is empty, so every
  customer admitted in a trial is either still inside or has left
  (`Network.TrialConserves`).
- After the final pass at `totalTime` every node's `last_tick` is
  `totalTime`, its integrals are non-negative, and `0 <= Lq <= L`.

Within one pass of the chain network, departures are admitted at `t` into a
node that has not yet ticked. Those customers are counted in that node's
flush at `t` for the interval that ends at `t`, as in the source
(`Routing.SettledSpec` states the flush over the occupancy after admission).

## Model

| member | source | states |
|---|---|---|
| `Times.Min` | QueueSim2.py:186-200 | `min` on times that may be infinite: the result is one of the arguments and at most both |
| `Times.Trunc` | QueueSim2.py:225 | Python's `int()` truncates toward zero: for `x >= 0` the result is the integer `r` with `r <= x < r + 1` |
| `Times.MinReal` | QueueSim5.py:43 | `min(l1, l2)`: one of the two, at most both |
| `Times.MinFold` | QueueSim2.py:221 | folding in a time no later than one already folded replaces it: when node 0's `next_ev` only drops, the running minimum after several admissions takes its last value only |
| `Bisect.BisectRight` | QueueSim2.py:74 | the insertion point of `bisect.insort` lies within the list |
| `Bisect.BisectRightSpec` | QueueSim2.py:74 | everything before the insertion point is `<= x` and, on a sorted list, everything from it on is `> x` |
| `Bisect.Insort` | QueueSim2.py:74 | `insort` is the list with `x` placed at `bisect_right`, one element longer (its contents and order are stated by `InsortBag`, `InsortMembers` and `InsortSorted`) |
| `Bisect.InsortBag` | QueueSim2.py:97 | `insort` adds exactly one occurrence of `x` and nothing else (as multisets) |
| `Bisect.InsortMembers` | QueueSim2.py:74 | the elements after `insort` are the old ones and `x` |
| `Bisect.InsortSorted` | QueueSim2.py:97 | `insort` keeps a sorted list sorted |
| `Occupancy.Draws` | QueueSim2.py:56-62 | `c` draws give `c` non-negative durations |
| `Occupancy.DrawsAt` | QueueSim2.py:72-76 | the `k`-th customer of a batch gets the `k`-th duration after those already drawn |
| `Occupancy.Head` | QueueSim2.py:101-102 | `next_ev` (`QueueModel.NextEv` is `Head` of the node's lists) is infinity exactly when no one is in service; otherwise it is a pending completion, and on a sorted list the smallest |
| `Occupancy.AdmitOneInv` | QueueSim2.py:73-76 | one arrival keeps the list sorted and within capacity, adds one customer, leaves who departs at `t` unchanged, places only completions `>= t`, and joins `wait_q` (storing only its duration) only when every counter is busy |
| `Occupancy.HeadAdmitOne` | QueueSim2.py:73-76 | admitting one customer (`AdmitOne`) never makes `next_ev` later |
| `Occupancy.AdmitInv` | QueueSim2.py:64-76 | `enqueue(t, c)` keeps the node invariant (sorted, within capacity, queue empty unless all counters busy) and adds exactly `c` customers |
| `Occupancy.AdmitConcat` | QueueSim2.py:72-76 | admitting one batch and then another is admitting both in order |
| `Occupancy.AdmitClosedForm` | QueueSim2.py:72-76 | admission of a batch (`Admit`, one `AdmitOne` per customer in order) fills the free counters first, completing at `t` plus their durations, and queues the rest in arrival order |
| `Occupancy.InsortAllSnoc` | QueueSim2.py:95-97 | starting customers one by one is repeated `insort` of `t + duration` |
| `Occupancy.InsortAllLength` | QueueSim2.py:95-97 | starting `n` customers adds `n` entries |
| `Occupancy.InsortAllBag` | QueueSim2.py:95-97 | the started customers' completion times are exactly `t` plus their durations, added to the counters |
| `Occupancy.InsortAllSorted` | QueueSim2.py:95-97 | starting customers keeps the counters sorted |
| `Occupancy.InsortAllFrom` | QueueSim2.py:95-97 | customers started at `t` complete no earlier than `t` |
| `Occupancy.DrawsConcat` | QueueSim2.py:72-76 | drawing `a` then `b` durations is drawing `a + b` |
| `Occupancy.Departed` | QueueSim2.py:91-93 | at most every customer in service leaves |
| `Occupancy.DepartedSpec` | QueueSim2.py:91-93 | the pop loop removes a prefix of completions that are all `< t`; on a sorted list every completion left is `>= t` |
| `Occupancy.DepartedIs` | QueueSim2.py:91-93 | the number popped is the one prefix length with all before `< t` and the next `>= t` |
| `Occupancy.DepartedInsort` | QueueSim2.py:74 | inserting a completion `>= t` does not change who departs at `t` |
| `Occupancy.RefillClosedForm` | QueueSim2.py:95-97 | the refill loop (`Refill`) starts the first `min(len(wait_q), free counters)` waiting customers, oldest first, at `t` plus their stored durations, and leaves the rest queued in order |
| `Occupancy.RefillInv` | QueueSim2.py:95-97 | after the refill the node invariant holds (all counters busy or queue empty), no customer is lost, and every customer already in service stays |
| `Occupancy.AdvanceSpec` | QueueSim2.py:88-99 | `tick`'s occupancy step (`Advance`) pops exactly the completions `< t`, returns their number, conserves customers (`old total == new total + out`), keeps the invariant and leaves no completion before `t` |
| `Queueing.Max` | QueueSim2.py:109-110 | Python's `max` on two counts |
| `Queueing.Flush` | QueueSim2.py:104-111 | `update_stat`: `qmax`/`cmax` are raised to the current lengths (and equal the old maximum or the current length); `last_tick` becomes `t` |
| `Queueing.WeightedIs` | QueueSim2.py:107-108 | the repeated addition used for `len(...) * dt` equals the product |
| `Queueing.FlushSpec` | QueueSim2.py:104-108 | the flush adds `len(wait_q) * dt` to `lq` and `len(counter_list) * dt` to `lc`, with `dt = t - last_tick` |
| `Queueing.FlushMonotone` | QueueSim2.py:104-108 | the integrals never decrease when `t >= last_tick` |
| `Queueing.NodeEnqueueSpec` | QueueSim2.py:64-76 | `enqueue` on the node's value (`NodeEnqueue`) keeps the invariant, adds `c` customers and `c` draws, leaves the statistics and this tick's departures alone, and with `c = 0` changes nothing |
| `Queueing.NodeEnqueueFloor` | QueueSim2.py:73-74 | admission at `t` adds no completion before `t` |
| `Queueing.NodeEnqueueTwice` | QueueSim2.py:218-220 | admitting arrivals one at a time at the same `tick` is admitting them as one batch |
| `Queueing.HeadEnqueueDrops` | QueueSim2.py:220-221 | one `enqueue(tick)` never makes the node's `next_ev` later |
| `Queueing.NodeTickSpec` | QueueSim2.py:78-99 | `tick` on the node's value (`NodeTick`) flushes the statistics over the occupancy before departures, removes exactly the completions `< t`, conserves customers, keeps every later completion, and leaves none before `t` |
| `Queueing.QueueModel.constructor` | QueueSim2.py:34-54 | a new node has empty lists and zero statistics |
| `Queueing.QueueModel.DesiredServiceTime` | QueueSim2.py:56-62 | each call draws the next duration |
| `Queueing.QueueModel.AdmitCustomer` | QueueSim2.py:73-76 | one pass of `enqueue`'s loop, on the node's value |
| `Queueing.QueueModel.Enqueue` | QueueSim2.py:64-76 | the in-place `enqueue` keeps the invariant and ends in `NodeEnqueue` of the old state |
| `Queueing.QueueModel.UpdateStat` | QueueSim2.py:104-111 | the in-place `update_stat` ends in `Flush` of the old statistics |
| `Queueing.QueueModel.Tick` | QueueSim2.py:78-99 | the in-place `tick` keeps the invariant and ends in `NodeTick` of the old state, returning its departures |
| `Queueing.QueueModel.PopDeparted` | QueueSim2.py:91-93 | the pop loop removes the first `Departed` entries and returns their number |
| `Queueing.QueueModel.RefillCounters` | QueueSim2.py:95-97 | the refill loop ends in `Refill` of the old lists |
| `Queueing.QueueModel.GetQl` | QueueSim2.py:134-142 | `getQl` is the queue length; on a valid node a non-empty queue means every counter is busy |
| `Queueing.QueueModel.Clear` | QueueSim2.py:144-156 | `clear` empties both lists and zeroes `lq`, `lc`, `qmax`, `cmax` and `last_tick` |
| `Routing.Dest` | QueueSim5.py:64-77 | departures only go forward: to `i + 1` in a chain; in the fan-out network from node 0 to node 2 exactly when `qs[1].getQl() > qs[2].getQl()` (else node 1), from nodes 1 and 2 to node 3, from node 3 nowhere |
| `Routing.Step` | QueueSim2.py:195-200 | a node's turn keeps the number of nodes |
| `Routing.Route` | QueueSim2.py:196-200 | routing one node's departures keeps the number of nodes; what it does is stated for the whole pass by `PassSpec`, `FanInflow` and `ChainInflow` |
| `Routing.Pass` | QueueSim2.py:183-201 | one pass keeps the number of nodes; its result is stated by `PassSpec`, `SettledSpec` and `PassConserves` |
| `Routing.InflowSettles` | QueueSim2.py:194-199 | only earlier nodes feed a node, so its inflow is complete when the pass reaches it |
| `Routing.PassFrom` | QueueSim2.py:194-200 | the loop of `tick` from node `i` on preserves the pass invariant `Stage` |
| `Routing.PassSpec` | QueueSim2.py:183-201 | `tick` in closed form: each node ends as its start value with its whole inflow admitted at `t` before it ticks; the customers leaving the network are the departures of nodes with no destination; the returned time is at most every node's final `next_ev` |
| `Routing.SettledSpec` | QueueSim2.py:194-200 | each node ends the pass valid, with nothing pending before `t`, having gained its inflow and lost its departures, and flushed at `t` |
| `Routing.PassKeeps` | QueueSim2.py:194-200 | after the pass every node is valid, nothing is pending before `t`, and every `last_tick` is `t` |
| `Routing.SumInflowStep` | QueueSim2.py:197-199 | a node's departures go either to exactly one node or out of the network |
| `Routing.FlowBalance` | QueueSim2.py:194-200 | all routed inflow plus all exits equals all departures |
| `Routing.SumBalance` | QueueSim2.py:194-200 | per-node balances sum up over the network |
| `Routing.PassConserves` | QueueSim2.py:183-201 | a pass conserves customers: those in the network afterwards plus those that left equal those before |
| `Routing.ChainInflow` | QueueSim2.py:197-198 | in a chain node `j > 0` receives exactly node `j - 1`'s departures |
| `Routing.ChainExited` | QueueSim2.py:197-198 | in a chain only the last node's departures leave the network |
| `Routing.FanInflow` | QueueSim5.py:64-79 | node 0's whole batch goes to node 2 when node 1's queue is strictly longer and to node 1 otherwise (never to the strictly longer queue); nodes 1 and 2 feed node 3; node 3's departures leave |
| `Routing.HeadFloor` | QueueSim2.py:101-102 | with no completion before `lo`, `next_ev >= lo` |
| `Routing.HeadBound` | QueueSim2.py:101-102 | on a sorted list, a bound below `next_ev` is below every pending completion |
| `Routing.RouteFloor` | QueueSim2.py:197-200 | a turn keeps a floor `lo <= t` on the running minimum and on the nodes still to come |
| `Routing.PassFloorFrom` | QueueSim2.py:194-200 | the rest of the pass keeps that floor |
| `Routing.PassFloor` | QueueSim2.py:183-201 | when nothing is pending before `lo <= t`, `tick(t)` returns at least `lo` |
| `Routing.PassFlushes` | QueueSim2.py:89 | the pass flushes every node at `t`; non-negative integrals flushed no later than `t` stay non-negative |
| `Arrivals.ArrivalNextSpec` | QueueSim5.py:26-43 | `next_arrival(t)`: in the chain one gap is drawn and the arrival is at least `minGap` after `t`; in the fan-out/fan-in network a gap is drawn exactly when `l1 <= t` or `l2 <= t`, only `l1` is renewed when it is due, otherwise only `l2` when it is due, otherwise nothing changes, and the result is `min(l1, l2)` |
| `Arrivals.DueDrops` | QueueSim2.py:218-223 | a stream that moves on by at least `minGap` has fewer arrivals due by `tick` |
| `Arrivals.DrawLowers` | QueueSim2.py:222-223 | drawing from an arrival due by `tick` leaves fewer arrivals due, so the arrival loop ends |
| `Arrivals.DueArrivals` | QueueSim2.py:218-223 | the arrival loop on values: it ends with the next arrival after `tick` (both streams after `tick` in the fan-out/fan-in network), draws exactly one gap per customer admitted, and admits none exactly when the first arrival is after `tick` |
| `Arrivals.DueArrivalsStep` | QueueSim2.py:218-223 | one admission and one draw leave one customer fewer to admit, with the same final arrival state |
| `Arrivals.DueArrivalsChain` | QueueSim2.py:218-223 | in the chain the loop admits exactly the arrivals `a`, `a + gap`, ... that are `<= tick`, one customer each, and stops at the first later one |
| `Network.Cleared` | QueueSim2.py:144-156 | a cleared node has empty lists, zero integrals and `last_tick` 0, and keeps its draws |
| `Network.SumsNonNegative` | QueueSim2.py:230-234 | summing `getTotalLc`/`getTotalLq` over non-negative nodes gives non-negative totals |
| `Network.NextTick` | QueueSim2.py:224-225 | `tick = int(next_ev) + 1` with `next_ev` above the floor never goes back, moves on when `next_ev >= tick`, and leaves nothing pending before the new tick minus 1 |
| `Network.ClockRound` | QueueSim2.py:214-225 | one round of `cal` on values: the clock never goes back, moves on when nothing before `tick` was pending at the start of the round, and keeps the floor for the next round |
| `Network.PassReady` | QueueSim2.py:216-219 | after the pass the nodes are valid, nothing is pending before `tick`, and the folded time is at most node 0's `next_ev` |
| `Network.EnqueueOneMore` | QueueSim2.py:218-220 | one more `enqueue(tick)` on node 0 after `k` of them is `k + 1` admissions |
| `Network.RoundFlushed` | QueueSim2.py:216 | after a round every node's statistics were flushed at `tick` and stay non-negative |
| `Network.MeanBounds` | QueueSim2.py:235-236 | `lq = total_lq / totalTime` is at least 0 and at most `l = (total_lc + total_lq) / totalTime` |
| `Network.RunMeansBounds` | QueueSim2.py:230-236 | `L` and `Lq` of nodes with non-negative integrals satisfy `0 <= Lq <= L` |
| `Network.Round` | QueueSim2.py:214-225 | one round of `cal` on values keeps the number of nodes; its properties are stated by `RoundSpec` |
| `Network.RoundSpec` | QueueSim2.py:214-225 | a round keeps the network valid and both arrival streams consistent, leaves the next arrival after `tick`, never moves the clock back, moves it on when nothing before `tick` was pending, leaves nothing pending before `tick` or before the new tick minus 1, and keeps statistics flushed by `tick` |
| `Network.RunFrom` | QueueSim2.py:214-226 | the outer loop of `cal` on values ends (it is a total function), keeping the network valid |
| `Network.RunFromStep` | QueueSim2.py:214-225 | before `totalTime` the loop is one round followed by the loop from the new tick; the round keeps what the loop needs and lowers the bound on the rounds left |
| `Network.RunFromDone` | QueueSim2.py:214 | at or after `totalTime` the loop changes nothing |
| `Network.RunFromFlushed` | QueueSim2.py:214-226 | statistics flushed by the current tick and by `totalTime` stay flushed by `totalTime` over the whole loop |
| `Network.RoundReady` | QueueSim2.py:214-225 | before `totalTime` a round leaves the loop ready for the next round, with fewer rounds left |
| `Network.RoundNoArrival` | QueueSim2.py:218-225 | when no arrival is due by `tick`, the new clock is `int(min(next_ev, arrival)) + 1` with `next_ev` from the pass alone |
| `Network.RoundRepeatsTick` | QueueSim2.py:196-199 | a concrete two-node chain, ready for the loop at tick 6, whose round sets the clock to 6 again |
| `Network.RoundConserves` | QueueSim2.py:214-225 | customers in the nodes after a round plus those that left the last node (`RoundFlow`: the exits of the pass) equal those before plus those admitted from the arrival process (the `k` of `DueArrivals`) |
| `Network.RunFromConserves` | QueueSim2.py:214-226 | over the whole loop, customers at the end plus those that left equal those at the start plus those admitted, both summed round by round (`RunFromFlow`) |
| `Network.RunConserves` | QueueSim2.py:203-227 | over `cal`, customers at the end plus those that left (in the loop and in the last pass, `RunFlow`) equal those at the start plus those admitted |
| `Network.TrialConserves` | QueueSim2.py:262-263 | after `clear_cal` and `cal`, the customers still inside plus those that left equal those admitted during the trial |
| `Network.SumTotalSet` | QueueSim2.py:197-198 | replacing one node changes the number of customers in the network by the difference for that node |
| `Network.SumTotalCleared` | QueueSim2.py:247-248 | after `clear_cal` the network holds no customer |
| `Network.Close` | QueueSim2.py:227-236 | the end of `cal` on values: the last pass at `totalTime`, then `L` and `Lq`; the network stays valid |
| `Network.CloseBounds` | QueueSim2.py:227-236 | after the last pass every node's `last_tick` is `totalTime` and its integrals are non-negative, and `0 <= Lq <= L` |
| `Network.Run` | QueueSim2.py:203-239 | `cal` on values: first arrival at 0, the outer loop, the last pass; afterwards every node's `last_tick` is `totalTime`, its integrals are non-negative, and `0 <= Lq <= L` |
| `Network.RunClose` | QueueSim2.py:210-236 | `cal` on values is its parts in order: the first arrival, the loop from tick 0, then the last pass and the averages (`Close`); the loop leaves every node's statistics flushed by `totalTime` |
| `Network.ClearAll` | QueueSim2.py:247-248 | `clear_cal` on the nodes: each node is `Cleared`, in order |
| `Network.ResetStreams` | QueueSim5.py:45-53 | `clear_cal`'s reset of the arrival process keeps the number of gaps drawn (only `l1`, `l2` are reset) |
| `Network.ClearedStart` | QueueSim2.py:262-263 | after `clear_cal` the network is valid and as `cal` needs it at its start |
| `Network.TrialRun` | QueueSim2.py:262-263 | one trial, `clear_cal` then `cal`, keeps the network valid and gives `0 <= Lq <= L` |
| `Network.Trials` | QueueSim2.py:257-265 | `simulate` on values: `n` trials in a row, collecting exactly `n` values of `L` and of `Lq` |
| `Network.TrialsBounds` | QueueSim2.py:257-265 | every trial's `Lq` is at least 0 and at most its `L` |
| `Network.Simulation.Configs` | QueueSim5.py:19-22 | each node's capacity and service stream, in order |
| `Network.Simulation.Snapshot` | QueueSim2.py:169 | the nodes' values, in order |
| `Network.Simulation.NextEvOf` | QueueSim2.py:101-102 | a node object's `next_ev` is `Head` of its value |
| `Network.Simulation.TickNode` | QueueSim2.py:195 | `q.tick(t)` changes node `i` only, as `NodeTick` says |
| `Network.Simulation.EnqueueNode` | QueueSim2.py:197-198 | `enqueue` on node `j` changes that node only, as `NodeEnqueue` says |
| `Network.Simulation.TickChain` | QueueSim2.py:183-201 | the chain's `tick` ends in `Routing.Pass` of the old nodes and returns its folded time |
| `Network.Simulation.ChainTurn` | QueueSim2.py:195-200 | one iteration of the chain's loop is `Routing.Step` |
| `Network.Simulation.TickFan` | QueueSim5.py:55-79 | the fan-out/fan-in `tick` ends in `Routing.Pass` of the old nodes and returns its folded time |
| `Network.Simulation.FanTurn` | QueueSim5.py:65-78 | one iteration of the fan-out/fan-in loop, with the target chosen by `getQl`, is `Routing.Step` |
| `Network.Simulation.Tick` | QueueSim5.py:55-64 | the overridden `tick` dispatches on the network, both ending in `Routing.Pass` |
| `Network.Simulation.ClearCal` | QueueSim5.py:45-53 | every node is cleared (`ClearAll`, as in the base class); in the fan-out/fan-in network `l1 = l2 = 0` (`ResetStreams`); afterwards the network is ready for a run |
| `Network.Simulation.ClearNode` | QueueSim2.py:247-248 | `q.clear()` changes that node only |
| `Network.Simulation.NextArrivalChain` | QueueSim2.py:297-308 | the next arrival is `t` plus the next gap, at least `minGap` later |
| `Network.Simulation.NextArrivalFan` | QueueSim5.py:26-43 | if `l1 <= t` only `l1` is renewed to `t + d`; else if `l2 <= t` only `l2` is; otherwise nothing changes; the result is `min(l1, l2)` |
| `Network.Simulation.NextArrival` | QueueSim2.py:171-181 | `next_arrival(t)` ends in `ArrivalNext` of the old arrival state: the new `l1`, `l2`, number of gaps drawn and the returned arrival, for both networks |
| `Network.Simulation.AdmitArrivals` | QueueSim2.py:218-223 | the arrival loop ends in `DueArrivals`: the final `l1`, `l2` and number of gaps drawn, the first arrival after `tick`, and the number `k` of customers admitted; node 0 ends as `k` admissions at `tick` and nothing else changes; `next_ev` is folded with node 0's final `next_ev` exactly when `k > 0` |
| `Network.Simulation.ArrivalTurn` | QueueSim2.py:219-223 | one iteration: node 0 gets one customer at `tick`, its `next_ev` is folded in and never later than before, and the arrival state and the next arrival are `ArrivalNext` from the arrival just admitted |
| `Network.Simulation.AdmitDue` | QueueSim2.py:219-223 | iteration `k + 1` of the arrival loop: one arrival fewer is left to admit with the same outcome, node 0 has had `k + 1` admissions, and the folded time is node 0's latest `next_ev` folded into the one before the loop |
| `Network.Simulation.AdmitOne` | QueueSim2.py:220-221 | one customer joins node 0 at `tick`, nothing else changes; node 0's `next_ev` is folded in and is never later than before |
| `Network.Simulation.Cal` | QueueSim2.py:203-239 | `cal` ends in `Run` of the old nodes and arrival state: the final nodes, the arrival state, `l` and `lq`; every node's `last_tick` is `totalTime` and `0 <= lq <= l` |
| `Network.Simulation.RunClock` | QueueSim2.py:212-226 | the outer loop ends in `RunFrom` of the nodes and arrival state at tick 0 |
| `Network.Simulation.CalRound` | QueueSim2.py:216-225 | one round ends in `Round` of the old state: the nodes after the pass and the admissions, the arrival state, the next arrival, and `tick = int(min(next_ev, arrival)) + 1` |
| `Network.Simulation.ClockStep` | QueueSim2.py:214-225 | one round before `totalTime`: the rest of the loop gives the same result from the new tick, the clock never goes back, and the bound on the rounds left drops |
| `Network.Simulation.Finish` | QueueSim2.py:227 | the last pass at `totalTime` leaves the nodes as `Close` (the pass at `totalTime`) says |
| `Network.Simulation.Conclude` | QueueSim2.py:227-236 | the last pass and the averages end in `Close` of the nodes: every node's `last_tick` is `totalTime`, and `0 <= lq <= l` |
| `Network.Simulation.Totals` | QueueSim2.py:230-234 | the sums of `getTotalLc` and `getTotalLq` over the nodes |
| `Network.Simulation.Averages` | QueueSim2.py:235-236 | `l` and `lq` are `RunMeans` of the nodes (the summed integrals averaged over `totalTime`), with `0 <= lq <= l` |
| `Network.Simulation.Simulate` | QueueSim2.py:250-265 | `simulate` ends in `Trials` of the old state with `totalTry` trials: the final nodes, arrival state, and the lists of L and Lq, with `0 <= Lq <= L` for every trial |
| `Network.Simulation.Trial` | QueueSim2.py:262-263 | one trial ends in `TrialRun`: `clear_cal`, then `cal` |
| `Network.Simulation.Chain` | QueueSim2.py:162-169 | a network over given nodes with the default run length (10000000) and number of runs (10) |
| `Network.Simulation.FanOutFanIn` | QueueSim5.py:9-24 | four fresh single-counter nodes, one per service stream, with both arrival streams due at 0 |
| `Network.NewSingleCounterNodes` | QueueSim5.py:19-22 | the constructor's loop builds distinct fresh single-counter nodes |

## Findings

| source | as written | input that shows it | evidently intended | confidence | as-written member | corrected member |
|---|---|---|---|---|---|---|
| QueueSim2.py:196-199 | `tick` folds the destination's `next_ev` right after `enqueue`, before the destination ticks, so a completion in `[tick - 1, tick)` still waiting there sets the next clock to `tick` again | chain of two one-counter nodes, unit durations, completions pending at 5.3 in node 0 and 5.7 in node 1, next arrival 100, `tick = 6`: the next clock is `int(5.7) + 1 = 6` | every round moves the clock on | not executed | `Network.RoundRepeatsTick` | `Network.ClockRound` |

The model keeps the fold as written. `Network.ClockRound` proves that the
clock moves on in every round that starts with nothing pending before `tick`,
and `Network.RoundSpec` that a round leaves nothing pending before `tick`;
so a repeated tick is followed by a round that moves on, and the loop still
reaches `totalTime` (`Network.RunFromStep`).

## Left out

- Random variates (`desired_distribute`, QueueSim2.py:7-26) are not modelled.
  Service durations and inter-arrival gaps are supplied as functions of their
  draw index. Python draws all of them from one generator; the model gives
  each node its own stream and the network its own.
- Inter-arrival gaps are assumed to be at least some `minGap > 0`. An
  exponential draw can be arbitrarily small, or 0 after float rounding. This
  bound is what lets the model prove that the arrival loop of `cal` ends.
- Floating point is modelled as exact real arithmetic, so float rounding of
  times is not captured.
- The 95% confidence interval of `simulate` (scipy's `stats.t.interval`,
  `numpy.mean`, `numpy.var`) is not modelled. `Simulate` returns the lists of
  L and Lq it would summarize.
- The `print` calls in `getTotalLc`, `getTotalLq`, `cal` and `simulate` are
  not modelled. `getTotalLc`/`getTotalLq` are read as the fields `lc`/`lq`
  in `Totals`.
- The `__main__` blocks and the module-level `simulate()` calls are not
  modelled. QueueSim1.py, QueueSim3.py and QueueSim4.py are not part of this
  model.
- The keyword-argument parsing of `QueueModel.__init__` is reduced to the
  number of counters and the service stream. `num_counters` is a `nat`;
  0 counters is allowed, as the source does not reject it.
- `next_arrival` of the base class raises `NotImplementedError`. The model
  has no abstract network, only the two concrete ones.
- `Network.Simulation.Cal`: it requires the nodes to start clean
  (`CleanStart`: nothing pending before 0, statistics flushed no later than
  0 and non-negative). `clear_cal` establishes this, and so does a fresh
  network. `cal` on a network left mid-run is not covered.
- `Network.Run`: it requires the same clean start as `Cal`, for the same
  reason.
- `Routing.PassSpec`: the time `tick` returns is proved to be at most every
  node's final `next_ev`, not equal to their minimum. The value folded for a
  destination can be its `next_ev` before it ticks, which is smaller.
- Python's `is` / `is not` comparisons on small integers in QueueSim5.py's
  `tick` are read as `==` / `!=`.
