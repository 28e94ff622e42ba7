# OptimisationNTN core in Dafny

A Dafny model of the simulation engine of OptimisationNTN. OptimisationNTN is a simulator for
offloading computation over a Non-Terrestrial Network: user devices, base stations, HAPS
(high-altitude platform stations) and LEO satellites joined by communication links. Users create
requests. An assignment strategy picks a compute node for each request. The request travels hop
by hop along link queues, and the compute node processes it tick by tick. A power strategy
switches nodes on and off, and every node keeps an energy ledger.

The model follows the source file by file, one Dafny module per file:

- `Requests`: the request status machine and its id counter.
- `Antennas`: antenna compatibility.
- `Nodes`: `BaseNode` with its HAPS, base-station and user-device constructors, power switching,
  the processing queue and the tick.
- `Links`: `CommunicationLink` with its FIFO transmission queue.
- `Networks`: topology construction, paths, delays, energy totals and the network tick.
- `Assignment`: the time-greedy, energy-greedy, closest-node, HAPS-only, random and matrix-based
  strategies.
- `QLearning` and `Trainer`: the Q-learning strategy and its training rewards.
- `Power`: the all-on, on-demand, on-demand-with-timeout and random power strategies.
- `Factories`: both strategy factories.
- `Matrices`: `Matrix` and `DecisionMatrices`.
- `Optimisation`: the optimisation strategies that store a power matrix.
- `PowerMatrices`: the power-state plan generators.
- `Analysis`: the analysis script's file-name parsing, normalisation, assignment score,
  success rate and strategy listing.
- `Commands`: the simulation launcher's command line.
- `Export`: the row assembly of the data export.
- `Text` and `Common`: the Python string operations these rely on (`split`, `join`, `replace`,
  `int`, `str`), and the shared `Option`/`Result`/error types.

Objects the source updates in place are classes with `modifies` clauses: nodes, links, the
network, requests, the matrices, the stateful strategies, the factories and the trainer. Code
that only computes is written as functions and lemmas. Each loop of the source is a method
proved against a specification function on its inputs, and the properties the source promises
are proved about those functions.

Conventions of the model:

- Ticks are integers, and the current tick is a parameter (`now`).
- Sizes, energies and times are reals.
- Distances are squared Euclidean distances. Squaring keeps the order and the ties of the
  source's `sqrt` distances, and the radius test is written as `DistSq <= r * r`.
- Link capacity is an opaque positive parameter (`efficiency`, the factor `log2(1 + SNR)`).
- The dBm-to-watt conversion is an opaque function parameter (`dbmToWatt`).
- Random draws are parameters with their documented ranges, or Dafny choices (`:|`).
- Python exceptions are `Err` values of a `Result`, named after the exception.

## Model

| member | source | states |
|---|---|---|
| Requests.PriorityOrdering | src/optimisation_ntn/networks/request.py:74-88 | a higher priority has a strictly tighter QoS limit and strictly smaller sizes than a lower one |
| Requests.IdCounter.constructor | src/optimisation_ntn/networks/request.py:31 | the class counter starts at 0 |
| Requests.Request.constructor | src/optimisation_ntn/networks/request.py:33-63 | id is the counter value and the counter grows by one; status CREATED with history [(CREATED, tick)]; empty path, index 0, progress 0; QoS limit and size come from the drawn priority's table; the history invariant holds |
| Requests.Request.SetSize | src/optimisation_ntn/networks/request.py:70-72 | only the size changes, to the new value |
| Requests.Request.SetPriorityType | src/optimisation_ntn/networks/request.py:74-88 | the QoS limit is the priority's limit and the size is one of that priority's allowed sizes; nothing else changes |
| Requests.Request.UpdateStatus | src/optimisation_ntn/networks/request.py:90-110 | a COMPLETED or FAILED request is left unchanged; any other request ends in the new status (the QoS-exceeded FAILED is overwritten) with exactly one (status, tick) entry appended and the change stamped; the history invariant is kept |
| Antennas.CompatibilityIsEquivalence | src/optimisation_ntn/networks/antenna.py:7-13 | compatibility is reflexive, symmetric and transitive, and gains play no part in it |
| Antennas.FirstCompatible | src/optimisation_ntn/nodes/base_node.py:80-85 | the index of the first compatible antenna, with none compatible before it |
| Nodes.TurnOnChargesOnce | src/optimisation_ntn/nodes/base_node.py:118-129 | `_turn_on` turns a node on unless its battery is depleted, and charges the turn-on peak exactly when an off node goes on |
| Nodes.PowerModes | src/optimisation_ntn/nodes/base_node.py:56-70 | for each power mode: the resulting state, the energy charged (the peak only on an off-to-on switch) and the reset of the state-change clock |
| Nodes.PowerNeverRefunds | src/optimisation_ntn/nodes/base_node.py:56-70 | applying the power strategy never lowers the energy consumed |
| Nodes.ProcessingTime | src/optimisation_ntn/nodes/base_node.py:114-116 | ZeroDivisionError exactly for a zero frequency; otherwise time times frequency equals 200 cycles per bit times size, and the time is non-negative for non-negative sizes |
| Nodes.ProcessingPowerByKind | src/optimisation_ntn/nodes/base_node.py:271-276 | k·f³ is 125 W for a HAPS, 27 W for a base station and 0 for a user device |
| Nodes.CostsNonNegative | src/optimisation_ntn/nodes/base_node.py:40-41 | every kind's turn-on peak, idle power and processing power are non-negative |
| Nodes.AntennaMatching | src/optimisation_ntn/nodes/haps.py:23-24 | a HAPS answers a VHF peer with its VHF antenna and a UHF peer with its UHF antenna; base stations and user devices match VHF peers only |
| Nodes.CapabilityByKind | src/optimisation_ntn/nodes/base_node.py:147-177 | a user device never processes and its turn-on costs nothing; a base station is never depleted and always turns on, paying 150 J when off; a HAPS at 2e4 J or more stays as it is on turn-on and cannot process; an off HAPS cannot process when the state is checked |
| Nodes.ChargesNonNegative | src/optimisation_ntn/nodes/base_node.py:204-206 | processing and idle charges over a non-negative time are non-negative |
| Nodes.SumSizesTail | src/optimisation_ntn/nodes/base_node.py:179-193 | the load of a queue is its head's size plus the load of the rest |
| Nodes.BaseNode.Haps | src/optimisation_ntn/nodes/haps.py:16-29 | a HAPS at the given id and position starts off, with no energy, load, queue, destinations, ledger, link counters or requests, and the HAPS profile with its invariants holding |
| Nodes.BaseNode.BaseStation | src/optimisation_ntn/nodes/base_station.py:11-22 | a base station at the given id and position starts on, with no energy, load, queue, destinations, ledger or link counters, and its invariants holding |
| Nodes.BaseNode.UserDevice | src/optimisation_ntn/nodes/user_device.py:16-32 | a user device at the given id and position starts off, with no energy, queue, destinations, ledger or current requests, and its invariants holding |
| Nodes.BaseNode.EstimatedProcessingTime | src/optimisation_ntn/nodes/base_node.py:109-112 | for a node able to process at all, it can take the request exactly when the estimated time is within the request's QoS limit |
| Nodes.BaseNode.TurnOn | src/optimisation_ntn/nodes/base_node.py:118-129 | the new state and energy are the turn-on step of the old ones |
| Nodes.BaseNode.TurnOff | src/optimisation_ntn/nodes/base_node.py:131-133 | the node is off, and only its state may change, so nothing is charged |
| Nodes.BaseNode.SetState | src/optimisation_ntn/nodes/base_node.py:135-142 | turning on goes through the battery check and peak charge; turning off charges nothing |
| Nodes.BaseNode.ApplyPowerStrategy | src/optimisation_ntn/nodes/base_node.py:56-70 | the clock, state and energy are the outcome of the node's power mode |
| Nodes.BaseNode.AddDestination | src/optimisation_ntn/nodes/base_node.py:87-89 | the destination is appended |
| Nodes.BaseNode.GetCompatibleAntenna | src/optimisation_ntn/nodes/base_node.py:80-85 | None exactly when no own antenna is compatible, otherwise the first compatible one |
| Nodes.BaseNode.AddActiveLink | src/optimisation_ntn/nodes/base_node.py:91-101 | the counter for the peer kind grows by one (from 0 when unseen), every other counter is kept, no counter goes negative |
| Nodes.BaseNode.RemoveActiveLink | src/optimisation_ntn/nodes/base_node.py:103-107 | the counter drops by one only when positive, every other counter is kept, no counter goes negative |
| Nodes.BaseNode.AddRequestToProcess | src/optimisation_ntn/nodes/base_node.py:179-193 | an accepted request is appended to the queue and the load, placed on this node with progress 0 and marked PROCESSING; a refused one changes nothing; the load stays the sum of the queued sizes |
| Nodes.BaseNode.ProcessRequests | src/optimisation_ntn/nodes/base_node.py:195-231 | only the head advances, by f·time/200, and k·f³·time is charged; a finished head leaves the queue and the load, FAILED at the battery ceiling and COMPLETED otherwise; the load invariant and energy monotonicity are kept |
| Nodes.BaseNode.Tick | src/optimisation_ntn/nodes/base_node.py:233-253 | power step, forced off when depleted, processing, idle energy only while on, then one ledger entry equal to the energy spent, so the ledger sums to the last tick's energy; energy never drops for a non-negative tick |
| Nodes.BaseNode.PowerStep | src/optimisation_ntn/nodes/base_node.py:235-241 | the power outcome, then forced off once the battery is depleted |
| Nodes.BaseNode.ChargeProcessing | src/optimisation_ntn/nodes/base_node.py:204-206 | the energy grows by the processing power times the time |
| Nodes.BaseNode.CloseTick | src/optimisation_ntn/nodes/base_node.py:245-253 | idle energy while on, one ledger entry of the tick's energy, the ledger invariant kept |
| Nodes.BaseNode.AddRequest | src/optimisation_ntn/nodes/user_device.py:34-40 | the request is appended to the user's current requests and returned |
| Nodes.BaseNode.AssignTargetNode | src/optimisation_ntn/nodes/user_device.py:42-45 | the request's target becomes the node |
| Links.CompatiblePair | src/optimisation_ntn/networks/communication_link.py:51-60 | None exactly when no pair of antennas is compatible; otherwise a compatible pair drawn from both nodes |
| Links.FindCompatibleAntennas | src/optimisation_ntn/networks/communication_link.py:51-60 | ValueError exactly when no pair matches, otherwise the first matching pair in search order |
| Links.CommunicationLink.constructor | src/optimisation_ntn/networks/communication_link.py:29-49 | a link with the given ends, configuration and antennas, an empty queue and no progress |
| Links.CommunicationLink.Create | src/optimisation_ntn/networks/communication_link.py:29-49 | ValueError with nothing changed when no antennas match; otherwise a fresh empty link, and node_b is appended to node_a's destinations |
| Links.CommunicationLink.AdjustedBandwidth | src/optimisation_ntn/networks/communication_link.py:70-74 | positive and at most the total bandwidth; times max(1, active count) it gives the total back |
| Links.CommunicationLink.Capacity | src/optimisation_ntn/networks/communication_link.py:125-128 | positive and at most the total bandwidth times the spectral efficiency |
| Links.CommunicationLink.TransmissionDelay | src/optimisation_ntn/networks/communication_link.py:130-132 | delay times capacity is the size, and the delay is non-negative for non-negative sizes |
| Links.CommunicationLink.AddToQueue | src/optimisation_ntn/networks/communication_link.py:134-137 | the request is appended and the progress reset |
| Links.CommunicationLink.Tick | src/optimisation_ntn/networks/communication_link.py:144-177 | an empty queue changes nothing but the completed list; otherwise the head gets capacity·time bits, a HAPS sender pays its transmission power, and a head that reaches its size moves to the completed list; at most one request completes, and it is the old head |
| Links.DivideByLarger | src/optimisation_ntn/networks/communication_link.py:70-74 | dividing a bandwidth by a larger count gives a smaller positive share |
| Links.BandwidthShrinksWithLoad | src/optimisation_ntn/networks/communication_link.py:70-74 | more active links never give a larger share, and no share exceeds the total |
| Networks.OfKind | src/optimisation_ntn/networks/network.py:60-65 | the nodes of one kind, all of them, and no others |
| Networks.OfKindAppend | src/optimisation_ntn/networks/network.py:60-65 | the typed view of a concatenation is the concatenation of the views |
| Networks.KindCountsPartition | src/optimisation_ntn/networks/network.py:44-49 | the four kind counts add up to the node count |
| Networks.ComputeNodesAreNonUsers | src/optimisation_ntn/networks/network.py:67 | the compute nodes are exactly the nodes that are not user devices |
| Networks.ArgMinFirst | src/optimisation_ntn/networks/network.py:88-98 | the index of a least key, and the first one |
| Networks.Dists | src/optimisation_ntn/networks/network.py:92-93 | the distance from the user to each candidate, in order |
| Networks.ClosestIndex | src/optimisation_ntn/networks/network.py:88-98 | found exactly when there is a candidate, and then the first closest one |
| Networks.ToEach | src/optimisation_ntn/networks/network.py:74-84 | one link from the node to each target, in order |
| Networks.FromEach | src/optimisation_ntn/networks/network.py:143-155 | one link from each source to the node, in order |
| Networks.RealizesAppend | src/optimisation_ntn/networks/network.py:56-155 | links realising two plans, concatenated, realise the concatenated plan |
| Networks.UsersPlanSize | src/optimisation_ntn/networks/network.py:72-114 | each user gets one link per HAPS, plus one when there is a base station |
| Networks.UsersPlanLinks | src/optimisation_ntn/networks/network.py:72-114 | every user link runs from a user to a HAPS or base station with the user configuration |
| Networks.StationPlanShape | src/optimisation_ntn/networks/network.py:117-140 | a station's links go to and come from HAPS, with the BS-to-HAPS and HAPS-to-BS configurations |
| Networks.StationPlanSize | src/optimisation_ntn/networks/network.py:117-140 | two links per HAPS for each station |
| Networks.StationsPlanSize | src/optimisation_ntn/networks/network.py:117-140 | 2·B·H station links in all |
| Networks.StationsPlanLinks | src/optimisation_ntn/networks/network.py:117-140 | every station link joins a station and a HAPS in one of the two directions |
| Networks.LeosPlanSize | src/optimisation_ntn/networks/network.py:143-155 | one link per (LEO, HAPS) pair |
| Networks.LeosPlanLinks | src/optimisation_ntn/networks/network.py:143-155 | every LEO link runs from a HAPS to a LEO with the HAPS-to-LEO configuration |
| Networks.LinkPlanShape | src/optimisation_ntn/networks/network.py:56-155 | the topology has U·H + U·[B > 0] + 2·B·H + L·H links, each between two network nodes of an allowed kind pair, none ending at a user |
| Networks.BindLinkCall | src/optimisation_ntn/networks/communication_link.py:29-34 | a call to the link constructor binds exactly when its positional arguments fit the three parameters and its keywords name each remaining parameter and nothing else; any other call raises TypeError |
| Networks.UpdateLinksAsWrittenFails | src/optimisation_ntn/networks/network.py:76-155 | the constructions as written (two nodes by position, four link parameters by keyword) raise TypeError while the intended call binds; so rebuilding the links raises TypeError exactly when the topology plans a link: a HAPS beside any user, station or LEO, or a user beside a station |
| Networks.UserIsLinked | src/optimisation_ntn/networks/network.py:72-114 | every user is linked to every HAPS and to its closest base station |
| Networks.PlannedLinksBuild | src/optimisation_ntn/networks/communication_link.py:51-60 | every planned link finds matching antennas except those ending at a LEO, which has none |
| Networks.RequestPath | src/optimisation_ntn/networks/network.py:167-184 | ValueError exactly when the target is not a destination and there is no HAPS; otherwise a direct path [source, target] when the target is a destination, else [source, first closest HAPS, target] |
| Networks.HopDelay | src/optimisation_ntn/networks/network.py:189-192 | the sum of the delays of every link for the hop: non-negative, and 0 when no link joins the two nodes |
| Networks.PathDelay | src/optimisation_ntn/networks/network.py:186-194 | non-negative, and 0 for a path of at most one node |
| Networks.PathDelaySplit | src/optimisation_ntn/networks/network.py:186-194 | the delay of two joined paths is the sum of their delays |
| Networks.EnergyOfAppend | src/optimisation_ntn/networks/network.py:249-275 | the energy of two node lists together is the sum of their energies |
| Networks.EnergyByKind | src/optimisation_ntn/networks/network.py:249-275 | the total energy splits into the four kinds' energies |
| Networks.EnergyOfKindStep | src/optimisation_ntn/networks/network.py:249-275 | appending a node adds its energy to its own kind only |
| Networks.TotalEnergySplits | src/optimisation_ntn/networks/network.py:249-275 | the compute-node total is the BS plus HAPS plus LEO totals |
| Networks.Capable | src/optimisation_ntn/networks/network.py:157-165 | exactly the listed nodes that can process the request |
| Networks.CompletedSeqMembers | src/optimisation_ntn/networks/network.py:218-219 | the walk over the links' completed lists visits exactly the finished requests |
| Networks.FirstLink | src/optimisation_ntn/networks/network.py:240-247 | the index of the first link from one node to the next, with no such link before it |
| Networks.UserReachesDirectly | src/optimisation_ntn/networks/network.py:167-184 | after a successful rebuild of the links (lines 72-114 of the same file), a user's path to any HAPS or to its closest base station is direct |
| Networks.Network.constructor | src/optimisation_ntn/networks/network.py:18-25 | no nodes, no links, empty typed views |
| Networks.Network.Connect | src/optimisation_ntn/networks/network.py:76-84 | a link is appended exactly when the antennas match, and the receiver is recorded as a destination |
| Networks.Network.ConnectPlanned | src/optimisation_ntn/networks/network.py:76-84 | one planned link is realised |
| Networks.Network.ConnectUser | src/optimisation_ntn/networks/network.py:72-114 | one user's links are realised in source order |
| Networks.Network.ConnectStation | src/optimisation_ntn/networks/network.py:117-140 | one station's links are realised in source order |
| Networks.Network.ConnectLeo | src/optimisation_ntn/networks/network.py:143-155 | a LEO link fails at its first HAPS, so it succeeds only without HAPS and adds no link |
| Networks.Network.ConnectLeos | src/optimisation_ntn/networks/network.py:143-155 | the LEO section succeeds exactly when there is no LEO or no HAPS, and adds no link |
| Networks.Network.ConnectUsers | src/optimisation_ntn/networks/network.py:72-114 | all user links are realised |
| Networks.Network.ConnectStations | src/optimisation_ntn/networks/network.py:117-140 | all station links are realised |
| Networks.Network.BuildLinks | src/optimisation_ntn/networks/network.py:56-155 | the links realise the whole plan when there is no LEO or no HAPS; otherwise the user and station links stand and the LEO section raises |
| Networks.Network.UpdateLinks | src/optimisation_ntn/networks/network.py:56-155 | the typed views match the nodes and the links realise the topology rule, or ValueError after the user and station links |
| Networks.Network.AddNode | src/optimisation_ntn/networks/network.py:51-54 | the node is appended and the links are rebuilt as above |
| Networks.Network.CountNodes | src/optimisation_ntn/networks/network.py:44-49 | never more than the node count |
| Networks.Network.GetComputeNodes | src/optimisation_ntn/networks/network.py:157-165 | exactly the compute nodes able to process the request |
| Networks.Network.GenerateRequestPath | src/optimisation_ntn/networks/network.py:167-184 | the path of `RequestPath` |
| Networks.Network.GetNetworkDelay | src/optimisation_ntn/networks/network.py:186-194 | the delay of `PathDelay` |
| Networks.Network.SumEnergy | src/optimisation_ntn/networks/network.py:249-254 | the running sum of the nodes' energy |
| Networks.Network.GetTotalEnergyConsumed | src/optimisation_ntn/networks/network.py:249-254 | the energy of the compute nodes, that is all nodes minus the user devices |
| Networks.Network.GetEnergyBs | src/optimisation_ntn/networks/network.py:256-261 | the energy of the base stations |
| Networks.Network.GetEnergyHaps | src/optimisation_ntn/networks/network.py:263-268 | the energy of the HAPS |
| Networks.Network.GetEnergyLeo | src/optimisation_ntn/networks/network.py:270-275 | the energy of the LEO satellites |
| Networks.Network.TickNodes | src/optimisation_ntn/networks/network.py:199-200 | each node writes one ledger entry per occurrence in the node list, keeps its ledger invariant, never loses energy for a non-negative tick, and its queue only loses finished heads; queued requests keep their path, hop index, target and size |
| Networks.Network.TickLinks | src/optimisation_ntn/networks/network.py:203-215 | each link either completes nothing with its queue unchanged or completes exactly its old head; only HAPS senders are charged, and for a non-negative tick no sender loses energy |
| Networks.Network.ForwardOne | src/optimisation_ntn/networks/network.py:219-247 | IndexError with the request untouched past the path's end; otherwise the hop index moves on by one along the unchanged path; at the path's end the request joins the node's queue when that node is its target and can take it; otherwise it joins the first link to the next hop, if one exists, and every other queue is kept |
| Networks.Network.ForwardStep | src/optimisation_ntn/networks/network.py:219-247 | the same forwarding step, seen from the network |
| Networks.Network.ForwardCompleted | src/optimisation_ntn/networks/network.py:218-247 | every finished request moves on once per completion, or IndexError when a path runs out; queues only grow |
| Networks.Network.ForwardAll | src/optimisation_ntn/networks/network.py:218-247 | the forwarding loop over a list of requests, with the same outcome per occurrence |
| Networks.Network.Tick | src/optimisation_ntn/networks/network.py:196-247 | nodes, then links, then forwarding; each node writes one ledger entry per occurrence and keeps its ledger invariant; the only error is IndexError |
| Networks.Network.Exchange | src/optimisation_ntn/networks/network.py:203-247 | links transmit and then forward; only HAPS senders are charged; each link completes at most its old head, and its queue otherwise only grows |
| Assignment.ScanNext | src/optimisation_ntn/algorithms/assignment/time_greedy.py:21-37 | the running minimum of one more candidate is one more step |
| Assignment.ScanSpec | src/optimisation_ntn/algorithms/assignment/time_greedy.py:14-39 | the scan fails exactly at the first failing candidate; with no candidate it is (None, None, inf); otherwise it is a first cheapest candidate |
| Assignment.TimeCandidates | src/optimisation_ntn/algorithms/assignment/time_greedy.py:21-37 | each candidate is priced by path delay plus processing time, in order |
| Assignment.EnergyCandidates | src/optimisation_ntn/algorithms/assignment/energy_greedy.py:23-41 | each candidate is priced by transmission plus processing energy, in order |
| Assignment.SelectTimeGreedy | src/optimisation_ntn/algorithms/assignment/time_greedy.py:14-39 | the loop's result is the running minimum over the time-priced candidates |
| Assignment.SelectEnergyGreedy | src/optimisation_ntn/algorithms/assignment/energy_greedy.py:16-43 | the loop's result is the running minimum over the energy-priced candidates |
| Assignment.PricedChoice | src/optimisation_ntn/algorithms/assignment/time_greedy.py:14-39 | the running minimum over any list of per-node prices: no node gives none; an error is the first failing price; otherwise the first node of least price, with the path and cost it was priced at (energy_greedy.py has the same loop) |
| Assignment.TimeGreedyChoice | src/optimisation_ntn/algorithms/assignment/time_greedy.py:14-39 | no node gives none; an error is the first pricing error; otherwise the first node of least time cost, with its path and cost |
| Assignment.EnergyGreedyChoice | src/optimisation_ntn/algorithms/assignment/energy_greedy.py:16-43 | no node gives none; an error is the first pricing error; otherwise the first node of least energy cost, with its path and cost |
| Assignment.ScanPrefixError | src/optimisation_ntn/algorithms/assignment/time_greedy.py:21-37 | once a prefix fails, the whole scan fails the same way |
| Assignment.LazyScanNext | src/optimisation_ntn/algorithms/assignment/closest_node.py:23-35 | the lazy scan of one more candidate is one more step |
| Assignment.LazyScanSpec | src/optimisation_ntn/algorithms/assignment/closest_node.py:16-40 | the closest-node scan fails exactly at the first record-breaking candidate whose path fails; otherwise it gives a closest candidate with its path |
| Assignment.LazyFailureKept | src/optimisation_ntn/algorithms/assignment/closest_node.py:23-35 | a first failure stays the first failure |
| Assignment.LazyImproved | src/optimisation_ntn/algorithms/assignment/closest_node.py:23-35 | a strictly closer candidate becomes the record, or the first failure |
| Assignment.LazyKept | src/optimisation_ntn/algorithms/assignment/closest_node.py:23-35 | a candidate that is not closer keeps the record |
| Assignment.RecordPrefix | src/optimisation_ntn/algorithms/assignment/closest_node.py:23-35 | being a record does not depend on later candidates |
| Assignment.Probes | src/optimisation_ntn/algorithms/assignment/closest_node.py:23-35 | each candidate with its distance and its path, in order |
| Assignment.Route | src/optimisation_ntn/algorithms/assignment/closest_node.py:37-40 | the chosen node with its path and that path's delay, or the path's error |
| Assignment.ClosestScan | src/optimisation_ntn/algorithms/assignment/closest_node.py:23-35 | the loop's result is the lazy scan of the probes |
| Assignment.LazyPrefixError | src/optimisation_ntn/algorithms/assignment/closest_node.py:23-35 | once a prefix fails, the whole lazy scan fails the same way |
| Assignment.SelectClosest | src/optimisation_ntn/algorithms/assignment/closest_node.py:16-40 | the result is the lazy scan, then the delay of the chosen path |
| Assignment.ClosestChoice | src/optimisation_ntn/algorithms/assignment/closest_node.py:16-40 | no node gives none; an error comes from a record-breaking path; otherwise a closest node with its path and delay |
| Assignment.SelectHapsOnly | src/optimisation_ntn/algorithms/assignment/haps_only.py:17-42 | the closest-node choice among the HAPS candidates only |
| Assignment.HapsOnlyChoice | src/optimisation_ntn/algorithms/assignment/haps_only.py:17-42 | none exactly when there is no HAPS; otherwise a closest HAPS with its path and delay |
| Assignment.SelectRandom | src/optimisation_ntn/algorithms/assignment/random_assignment.py:15-26 | no node gives none; otherwise some listed node with its path and delay, or that path's error |
| Assignment.Designated | src/optimisation_ntn/algorithms/assignment/matrix_based.py:38-49 | a matrix entry designates a compute node by Python indexing: IndexError below the negative range, none past the end, the entry's node otherwise |
| Assignment.MatrixBased.constructor | src/optimisation_ntn/algorithms/assignment/matrix_based.py:17-20 | no matrix and cursor 0 |
| Assignment.MatrixBased.SetAssignmentMatrix | src/optimisation_ntn/algorithms/assignment/matrix_based.py:22-25 | the matrix is stored and the cursor reset |
| Assignment.MatrixBased.SelectComputeNode | src/optimisation_ntn/algorithms/assignment/matrix_based.py:27-51 | ValueError without a matrix; none when the matrix is spent; otherwise the cursor moves on by one and the passed entry designates the node |
| QLearning.RequestSizeDigitNeverOne | src/optimisation_ntn/algorithms/assignment/qlearning.py:107-115 | the per-node size digit is never 1, because the branch for 1 is unreachable; it is 2 exactly above 3e6 |
| QLearning.PowerCategoryByKind | src/optimisation_ntn/algorithms/assignment/qlearning.py:88-105 | for a non-zero size the power category is 2 for a HAPS and 0 for a base station, and a user device raises ZeroDivisionError |
| QLearning.BarsAppend | src/optimisation_ntn/algorithms/assignment/qlearning.py:117-119 | separators of two strings add up |
| QLearning.StateFails | src/optimisation_ntn/algorithms/assignment/qlearning.py:45-119 | the encoding fails exactly when some node has a zero frequency, or the request has size 0 and there is a node |
| QLearning.StateLayout | src/optimisation_ntn/algorithms/assignment/qlearning.py:45-119 | a state has one separator and 10 characters per node after the two-character size prefix, and holds each node's segment at its place |
| QLearning.AppendSegment | src/optimisation_ntn/algorithms/assignment/qlearning.py:117-119 | joining one more segment keeps the earlier ones in place |
| QLearning.SegmentShape | src/optimisation_ntn/algorithms/assignment/qlearning.py:66-117 | a node segment has nine characters and no separator |
| QLearning.BarsNone | src/optimisation_ntn/algorithms/assignment/qlearning.py:62 | a string without separators has none |
| QLearning.GetState | src/optimisation_ntn/algorithms/assignment/qlearning.py:45-119 | the loop's result is the state encoding |
| QLearning.StatePrefixError | src/optimisation_ntn/algorithms/assignment/qlearning.py:65-117 | once a prefix of the nodes fails to encode, the whole list fails the same way |
| QLearning.Inserted | src/optimisation_ntn/algorithms/assignment/qlearning.py:121-125 | the state gets zeros when new, and every other entry is kept |
| QLearning.ArgMax | src/optimisation_ntn/algorithms/assignment/qlearning.py:188 | the first index of a largest value |
| QLearning.TdBetween | src/optimisation_ntn/algorithms/assignment/qlearning.py:213-228 | the updated value lies between the old value and the target; alpha 0 keeps it and alpha 1 gives the target |
| QLearning.UpdateTouchesOneValue | src/optimisation_ntn/algorithms/assignment/qlearning.py:206-228 | an update changes only the last state's value for the last action, apart from the entry the next state may add |
| QLearning.FirstLinkTo | src/optimisation_ntn/algorithms/assignment/qlearning.py:150-161 | the first link into the node, or none exactly when no link ends there |
| QLearning.FindLinkTo | src/optimisation_ntn/algorithms/assignment/qlearning.py:150-161 | the loop with `break` finds the first link into the node |
| QLearning.ComputePreviousReward | src/optimisation_ntn/algorithms/assignment/qlearning.py:131-172 | the search with `break` agrees with the reward function: -100 for a failed request, minus the squared energy per Mbit for a completed one, 0 otherwise |
| QLearning.PreviousRewardRange | src/optimisation_ntn/algorithms/assignment/qlearning.py:131-172 | a previous action's reward is at most 0: exactly -100 for a failed request, 0 for one neither failed nor completed, and the only error is ZeroDivisionError for a completed one |
| QLearning.RequestRewardShape | src/optimisation_ntn/algorithms/assignment/qlearning.py:241-269 | with the completion time in seconds, an on-time completion earns exactly 100 more than a late one on the same node, at most 50, and fails only for a node of zero frequency |
| QLearning.RequestRewardUnitMismatch | src/optimisation_ntn/algorithms/assignment/qlearning.py:250-251 | a request completed 5 ticks of 0.1 s after creation, within its 0.5 s limit, is penalised as late when ticks are compared with seconds |
| QLearning.QLearningAssignment.constructor | src/optimisation_ntn/algorithms/assignment/qlearning.py:16-33 | the given parameters, an empty table and no last state, action or request |
| QLearning.QLearningAssignment.GetQValues | src/optimisation_ntn/algorithms/assignment/qlearning.py:121-125 | the table gains a zero entry for a new state, and the state's entry is returned |
| QLearning.QLearningAssignment.Update | src/optimisation_ntn/algorithms/assignment/qlearning.py:206-228 | the outcome and new table of the update function |
| QLearning.QLearningAssignment.Learn | src/optimisation_ntn/algorithms/assignment/qlearning.py:131-175 | the reward for the previous action, then the update |
| QLearning.QLearningAssignment.Observe | src/optimisation_ntn/algorithms/assignment/qlearning.py:131-177 | learning, then the state encoding of the request |
| QLearning.QLearningAssignment.LearnOnEmpty | src/optimisation_ntn/algorithms/assignment/qlearning.py:219-223 | learning over no nodes can only fail with ValueError |
| QLearning.QLearningAssignment.Act | src/optimisation_ntn/algorithms/assignment/qlearning.py:180-194 | an action within range, the first best one when not exploring, and the state, action and request recorded |
| QLearning.QLearningAssignment.Choose | src/optimisation_ntn/algorithms/assignment/qlearning.py:178-199 | the table gains the state's entry; no candidate gives ValueError with the bookkeeping untouched; otherwise state, action and request are recorded before routing, the action is in range (greedy when not exploring), and the result is the chosen node with its path and delay or the path error |
| QLearning.QLearningAssignment.SelectComputeNode | src/optimisation_ntn/algorithms/assignment/qlearning.py:127-204 | every outcome: a learning error or an encoding error (ZeroDivisionError) leaves the bookkeeping untouched with the learned table; no node gives ValueError; otherwise the recorded state is the request's encoding and the action is in range (greedy when not exploring), and a path error surfaces after the recording, else the chosen node comes with its path and delay |
| Trainer.Raised | src/optimisation_ntn/algorithms/assignment/qlearning_trainer.py:36-37 | the bound after seeing an energy is the larger of the two, starting from minus infinity |
| Trainer.Lowered | src/optimisation_ntn/algorithms/assignment/qlearning_trainer.py:38-39 | the bound after seeing an energy is the smaller of the two, starting from plus infinity |
| Trainer.ShapedRewardBounds | src/optimisation_ntn/algorithms/assignment/qlearning_trainer.py:41-48 | inside the bounds the reward lies in [-5·qos, 5·qos]: the least energy earns 5·qos, the largest -5·qos, and less energy never earns less |
| Trainer.Decay | src/optimisation_ntn/algorithms/assignment/qlearning_trainer.py:99 | one decay step is either the floor or the decayed rate, never below the floor |
| Trainer.ScheduleFacts | src/optimisation_ntn/algorithms/assignment/qlearning_trainer.py:79-99 | the exploration rate stays between the floor and the start and never increases |
| Trainer.QLearningTrainer.constructor | src/optimisation_ntn/algorithms/assignment/qlearning_trainer.py:12-29 | the schedule parameters, and bounds at minus and plus infinity |
| Trainer.QLearningTrainer.EpisodeReward | src/optimisation_ntn/algorithms/assignment/qlearning_trainer.py:31-51 | above 0.8 the bounds widen to hold the energy and the reward is the shaped one (ZeroDivisionError when the bounds meet); otherwise -(1 - qos)·10 with the bounds kept |
| Trainer.QLearningTrainer.EpsilonSchedule | src/optimisation_ntn/algorithms/assignment/qlearning_trainer.py:79-99 | one rate per episode, each the schedule at that episode, none after the first below the floor |
| Trainer.FirstShapedRewardFails | src/optimisation_ntn/algorithms/assignment/qlearning_trainer.py:35-43 | a fresh trainer's first rewarded episode divides by zero |
| Power.SwitchedCharges | src/optimisation_ntn/nodes/base_node.py:118-133 | a command turns on only when allowed, turns off, or keeps the state, and charges the peak exactly on an off-to-on switch |
| Power.SwitchedTwice | src/optimisation_ntn/algorithms/power/all_on.py:12-14 | repeating a command changes nothing more |
| Power.Execute | src/optimisation_ntn/algorithms/power/on_demand.py:14-17 | the node's state and energy after one command |
| Power.ApplyAllOn | src/optimisation_ntn/algorithms/power/all_on.py:12-14 | every listed node is turned on through `_turn_on` |
| Power.ApplyOnDemand | src/optimisation_ntn/algorithms/power/on_demand.py:12-17 | every busy node is turned on and every idle node off |
| Power.OnDemandOutcome | src/optimisation_ntn/algorithms/power/on_demand.py:12-17 | a node ends on exactly when busy and allowed, and an idle node is charged nothing |
| Power.Entries | src/optimisation_ntn/algorithms/power/on_demand_timeout.py:17-18 | each node's id and whether its queue is non-empty, in order |
| Power.TimeoutPass | src/optimisation_ntn/algorithms/power/on_demand_timeout.py:16-24 | one command per node |
| Power.TimeoutPassPrefix | src/optimisation_ntn/algorithms/power/on_demand_timeout.py:16-24 | the commands for a prefix are a prefix of the commands |
| Power.TimeoutPassAt | src/optimisation_ntn/algorithms/power/on_demand_timeout.py:16-24 | the command at a position is the step from the stamps left by the nodes before it |
| Power.TimeoutPassFacts | src/optimisation_ntn/algorithms/power/on_demand_timeout.py:16-24 | a node is turned on exactly when busy; every stamp is the current time or an old one; a busy node is stamped now |
| Power.TimeoutOffNeedsStamp | src/optimisation_ntn/algorithms/power/on_demand_timeout.py:21-24 | a node is turned off only when idle with a stamp older than the timeout |
| Power.HitNext | src/optimisation_ntn/algorithms/power/on_demand_timeout.py:17-24 | a node was hit by a command up to one more position exactly when it was before or is hit there |
| Power.TimedNext | src/optimisation_ntn/algorithms/power/on_demand_timeout.py:17-24 | visiting a node once more gives the same outcome as its recorded history plus that visit |
| Power.OnDemandTimeout.constructor | src/optimisation_ntn/algorithms/power/on_demand_timeout.py:12-14 | the given timeout and no stamps |
| Power.OnDemandTimeout.Visit | src/optimisation_ntn/algorithms/power/on_demand_timeout.py:18-24 | one node's timeout step: the command, the new stamps and the node's new state |
| Power.OnDemandTimeout.Step | src/optimisation_ntn/algorithms/power/on_demand_timeout.py:17-24 | one more node visited, with progress kept for all nodes |
| Power.OnDemandTimeout.Apply | src/optimisation_ntn/algorithms/power/on_demand_timeout.py:16-24 | the stamps of the timeout pass; a busy node is on, an idle node is off if turned off at one of its positions, and otherwise unchanged |
| Power.NumActiveBounds | src/optimisation_ntn/algorithms/power/random_strategy.py:45 | between 1 and the node count, and epsilon's share rounded down unless that is 0 |
| Power.BelowCard | src/optimisation_ntn/algorithms/power/random_strategy.py:46 | the index range has as many indices as nodes |
| Power.RandomPower.constructor | src/optimisation_ntn/algorithms/power/random_strategy.py:13-34 | the given parameters, no active nodes, no change yet, no accumulated time |
| Power.NewRandomPower | src/optimisation_ntn/algorithms/power/random_strategy.py:26-34 | ValueError exactly when epsilon is outside [0, 1]; otherwise a fresh strategy with the given parameters |
| Power.RandomPower.SelectActive | src/optimisation_ntn/algorithms/power/random_strategy.py:40-47 | no nodes keep the set; otherwise the keys of max(1, floor(n·epsilon)) distinct node positions |
| Power.RandomPower.Apply | src/optimisation_ntn/algorithms/power/random_strategy.py:49-73 | time accumulates; the set is redrawn exactly when it is empty or the interval has passed with change enabled; then nodes with a key in the set are turned on and the others off |
| Factories.Dispatch | src/optimisation_ntn/algorithms/assignment/strategy_factory.py:33-68 | ValueError exactly for an unknown name, a class that is not a strategy, or an unsupported argument; on any registry, None makes the class registered as "TimeGreedy", an optimiser name the one registered as "MatrixBased", any other registered name its own class, and a strategy class itself; only the "QLearning" name and the Q-learning class get the table path; an instance is returned as it is |
| Factories.InitialDispatch | src/optimisation_ntn/algorithms/assignment/strategy_factory.py:20-68 | on the built-in registry: none gives TimeGreedy, optimisers give MatrixBased, QLearning gets the path, other names are refused |
| Factories.RegisteredIsDispatched | src/optimisation_ntn/algorithms/assignment/strategy_factory.py:34-75 | a registered strategy is what its name dispatches to, unless the name is an optimiser's |
| Factories.InsertedOrdered | src/optimisation_ntn/algorithms/assignment/strategy_factory.py:75 | a dictionary insert keeps the key order without duplicates |
| Factories.AssignmentFactory.constructor | src/optimisation_ntn/algorithms/assignment/strategy_factory.py:20-31 | the seven built-in strategies in their order |
| Factories.AssignmentFactory.RegisterStrategy | src/optimisation_ntn/algorithms/assignment/strategy_factory.py:70-75 | ValueError with nothing changed for a non-strategy; otherwise the name maps to the class and the key order is kept |
| Factories.AssignmentFactory.AvailableStrategies | src/optimisation_ntn/algorithms/assignment/strategy_factory.py:77-80 | the registered names in order, then GA, PSO and DE in some order |
| Factories.PowerFactory.constructor | src/optimisation_ntn/algorithms/power/strategy_factory.py:15-20 | the four built-in power strategies in their order |
| Factories.PowerFactory.GetStrategy | src/optimisation_ntn/algorithms/power/strategy_factory.py:22-27 | ValueError naming the strategy exactly when it is unknown, otherwise its class |
| Factories.PowerFactory.RegisterStrategy | src/optimisation_ntn/algorithms/power/strategy_factory.py:29-34 | ValueError with nothing changed for a non-strategy; otherwise the name maps to the class |
| Factories.PowerFactory.AvailableStrategies | src/optimisation_ntn/algorithms/power/strategy_factory.py:36-39 | every registered name once |
| Factories.InitialPowerRegistry | src/optimisation_ntn/algorithms/power/strategy_factory.py:15-20 | the built-in registry holds exactly the four names, in order, with Random mapped to the random strategy |
| Matrices.Zeros | src/optimisation_ntn/matrices/matrix.py:6 | a fresh grid of the given shape filled with 0 |
| Matrices.CopyOf | src/optimisation_ntn/matrices/matrix.py:11 | a fresh grid equal to the given one |
| Matrices.Matrix.constructor | src/optimisation_ntn/matrices/matrix.py:5-7 | a zero matrix of the given shape and name |
| Matrices.Matrix.Update | src/optimisation_ntn/matrices/matrix.py:9-13 | ValueError with the data kept on a shape mismatch; otherwise a fresh copy of the new data |
| Matrices.Matrix.GetValue | src/optimisation_ntn/matrices/matrix.py:15-16 | the entry under Python indexing, negative indices counting from the end, and IndexError out of range |
| Matrices.Matrix.SetValue | src/optimisation_ntn/matrices/matrix.py:18-19 | IndexError with nothing changed out of range; otherwise reading back gives the value and every other entry is kept |
| Matrices.Matrix.ApplyMask | src/optimisation_ntn/matrices/matrix.py:21-26 | ValueError with nothing changed on a shape mismatch; otherwise every entry is multiplied by the mask's |
| Matrices.ParseMatrixType | src/optimisation_ntn/matrices/decision_matrices.py:14-20 | exactly the four codes A, B, K and X are accepted, and each is its type's code |
| Matrices.CodeRoundTrip | src/optimisation_ntn/matrices/decision_matrices.py:14-20 | parsing a type's code gives the type back |
| Matrices.Positions | src/optimisation_ntn/matrices/decision_matrices.py:44 | the stations' positions, in order |
| Matrices.Nearest | src/optimisation_ntn/matrices/decision_matrices.py:51-57 | some station in range exactly when there is one, and then a nearest one |
| Matrices.CoverageRow | src/optimisation_ntn/matrices/decision_matrices.py:55-61 | a user is covered exactly when a station is in range, and all covering stations are equally near |
| Matrices.CoverRow | src/optimisation_ntn/matrices/decision_matrices.py:48-61 | a user's row marks exactly the nearest stations in range, and other rows are kept |
| Matrices.Repeat | src/optimisation_ntn/matrices/decision_matrices.py:87 | the tick repeated count times |
| Matrices.Ticks | src/optimisation_ntn/matrices/decision_matrices.py:86-90 | every request tick is a valid step |
| Matrices.TicksFacts | src/optimisation_ntn/matrices/decision_matrices.py:86-90 | one request per drawn arrival, in non-decreasing tick order |
| Matrices.FilledRows | src/optimisation_ntn/matrices/decision_matrices.py:85-90 | at most as many rows as requests are filled, in tick order, and all of them when the draw hit the count |
| Matrices.FillRequests | src/optimisation_ntn/matrices/decision_matrices.py:85-91 | each filled row has one 1, at its request's tick |
| Matrices.RequestShape | src/optimisation_ntn/matrices/decision_matrices.py:70-77 | ValueError for a non-positive count or step number, and numpy's ValueError for a buffer longer than the run; ZeroDivisionError exactly when a buffer comes with a zero tick length or consumes every step; without a buffer, the steps as given and no padding; on success the tick count plus the padding is the requested step count |
| Matrices.Padded | src/optimisation_ntn/matrices/decision_matrices.py:95-98 | a grid padded with zeros on the bottom and right |
| Matrices.FirstIndex | src/optimisation_ntn/matrices/decision_matrices.py:112-115 | the first position of the node, or none exactly when it is absent |
| Matrices.AssignRow | src/optimisation_ntn/matrices/decision_matrices.py:108-115 | a user's row marks exactly the compute nodes processing one of its requests, and other rows are kept |
| Matrices.DecisionMatrices.constructor | src/optimisation_ntn/matrices/decision_matrices.py:26-33 | four distinct fresh zero matrices of the given dimension |
| Matrices.DecisionMatrices.GenerateCoverageMatrix | src/optimisation_ntn/matrices/decision_matrices.py:35-63 | the coverage matrix, users by stations, marks the nearest stations in range, and the other matrices are kept |
| Matrices.DecisionMatrices.GenerateRequestMatrix | src/optimisation_ntn/matrices/decision_matrices.py:65-98 | the shape's error with nothing changed (ValueError for a non-positive count or a buffer longer than the run, ZeroDivisionError for a zero tick length with a buffer or a buffer that consumes every step); otherwise a request matrix filled from the arrival draw and padded by the buffer, except that a negative buffer stores the unpadded grid and then raises ValueError; the other matrices are kept |
| Matrices.DecisionMatrices.UpdateAssignmentMatrix | src/optimisation_ntn/matrices/decision_matrices.py:100-117 | the assignment matrix marks where each user's requests are processing, and the other matrices are kept |
| Matrices.DecisionMatrices.GetMatrix | src/optimisation_ntn/matrices/decision_matrices.py:119-134 | the stored matrix, or ValueError exactly when the key is not a stored type |
| Matrices.DecisionMatrices.SetMatrix | src/optimisation_ntn/matrices/decision_matrices.py:136-147 | ValueError with nothing changed exactly for a string that is no type code; otherwise the matrix is stored under its type |
| Matrices.DecisionMatrices.GetSnapshot | src/optimisation_ntn/matrices/decision_matrices.py:149-153 | AttributeError exactly when some stored value is a `Matrix` object; otherwise fresh copies of every grid |
| Matrices.DecisionMatrices.Snapshot | src/optimisation_ntn/matrices/decision_matrices.py:149-153 | fresh copies of every stored grid, a `Matrix` object contributing its data |
| Optimisation.BitBounds | src/optimisation_ntn/algorithms/optimization_strategy.py:86 | every draw gives 0 or 1; probability 1 or more gives 1; NaN or at most 0 gives 0 |
| Optimisation.RowSumBounds | src/optimisation_ntn/algorithms/optimization_strategy.py:92 | a binary row sums to between 0 and its length |
| Optimisation.GridSumBounds | src/optimisation_ntn/algorithms/optimization_strategy.py:92 | a binary grid sums to between 0 and its size |
| Optimisation.AdaptedProbability | src/optimisation_ntn/algorithms/optimization_strategy.py:89-92 | after a binary request matrix the new probability lies in [0.5, 1.5] |
| Optimisation.AllOnStrategy.constructor | src/optimisation_ntn/algorithms/optimization_strategy.py:14-22 | the given matrices and network |
| Optimisation.AllOnStrategy.Optimize | src/optimisation_ntn/algorithms/optimization_strategy.py:49-60 | a fresh all-ones square matrix over the nodes, stored as the power-state matrix |
| Optimisation.RandomStrategy.constructor | src/optimisation_ntn/algorithms/optimization_strategy.py:69-80 | the given matrices, network and probability |
| Optimisation.RandomStrategy.Optimize | src/optimisation_ntn/algorithms/optimization_strategy.py:82-103 | KeyError with nothing changed when the last history entry has no request matrix; otherwise the probability becomes that matrix's mean plus 0.5 (kept with no history), and the drawn 0/1 matrix is stored as the power state |
| Optimisation.NamesDiffer | src/optimisation_ntn/algorithms/optimization_strategy.py:62-106 | the two strategies' display names never coincide |
| Optimisation.SnapshotAfterAllOn | src/optimisation_ntn/algorithms/optimization_strategy.py:58 | a snapshot taken after the all-on strategy stored its `Matrix` raises AttributeError |
| Optimisation.IntendedSnapshotAfterAllOn | src/optimisation_ntn/algorithms/optimization_strategy.py:58 | with the corrected snapshot, the power-state copy is the all-ones grid over the nodes |
| PowerMatrices.AllOn | src/optimisation_ntn/algorithms/power_strategy.py:31-44 | a static 0/1 plan of the given shape, all ones |
| PowerMatrices.RandomPlanOf | src/optimisation_ntn/algorithms/power_strategy.py:61-75 | ValueError exactly for a probability outside [0, 1]; otherwise a 0/1 plan whose entry is 1 exactly when its draw is at least 1 - p |
| PowerMatrices.RandomPlanExtremes | src/optimisation_ntn/algorithms/power_strategy.py:61-75 | probability 1 gives the all-on plan and probability 0 gives all zeros |
| PowerMatrices.StaticPlan | src/optimisation_ntn/algorithms/power_strategy.py:84-101 | a 0/1 plan in which each device keeps its initial state at every step |
| PowerMatrices.StaticPlanIsStatic | src/optimisation_ntn/algorithms/power_strategy.py:84-101 | the static plan is static, and all-ones initial states give the all-on plan |
| PowerMatrices.Name | src/optimisation_ntn/algorithms/power_strategy.py:22-28 | the static strategy is named by its class |
| PowerMatrices.NamesIdentifyKind | src/optimisation_ntn/algorithms/power_strategy.py:22-78 | equal names mean the same kind of strategy |
| Analysis.ParseFileName | analyse/energy_qos_analysis.py:32-39 | skipped exactly when there are fewer than five underscore fields; a bad count raises ValueError |
| Analysis.FileNameRoundTrip | analyse/energy_qos_analysis.py:30-39 | a result file's name gives back its power strategy, assignment strategy and user count |
| Analysis.SplitKey | analyse/energy_qos_analysis.py:684 | ValueError exactly when the key does not split into two parts at " + " |
| Analysis.KeyRoundTrip | analyse/energy_qos_analysis.py:684 | splitting a key built as on line 42 gives its parts back, and a split key rebuilds to itself |
| Analysis.Least | analyse/energy_qos_analysis.py:191 | a listed value no larger than any other |
| Analysis.Greatest | analyse/energy_qos_analysis.py:192 | a listed value no smaller than any other |
| Analysis.Normalize | analyse/energy_qos_analysis.py:187-196 | ValueError exactly for no values; otherwise one value per input |
| Analysis.NormalizeAt | analyse/energy_qos_analysis.py:194-196 | each value is 1.0 when all are equal and its min-max scaling otherwise |
| Analysis.NormalizeBounds | analyse/energy_qos_analysis.py:187-196 | values lie in [0, 1] and keep their order; the least maps to 0 and the largest to 1, and equal values all map to 1 |
| Analysis.AssignmentScore | analyse/energy_qos_analysis.py:199-227 | ValueError exactly when there are no energies |
| Analysis.EnergyComponentBounds | analyse/energy_qos_analysis.py:216-221 | the energy component lies in [0, 0.5], is 0.5 at the least energy and 0 at the largest, and never grows with energy |
| Analysis.HalfScaled | analyse/energy_qos_analysis.py:224-227 | a component in [0, 0.5] times a success share stays in [0, 0.5] |
| Analysis.ScaledMonotone | analyse/energy_qos_analysis.py:224-227 | scaling by the success share keeps order |
| Analysis.AssignmentScoreBounds | analyse/energy_qos_analysis.py:199-227 | the score lies in [0, 0.5] and never grows with energy |
| Analysis.AssignmentScoreExtremes | analyse/energy_qos_analysis.py:199-227 | the least energy scores success/200, and the largest scores 0 when energies differ |
| Analysis.ComponentFromNormalized | analyse/energy_qos_analysis.py:187-221 | the energy component is half of one minus the normalised energy |
| Analysis.SuccessRateBounds | analyse/energy_qos_analysis.py:155-158 | the rate lies in [0, 100]; it is 100 exactly with completions and no failures, and 0 exactly without completions |
| Analysis.DisplayNameFacts | analyse/energy_qos_analysis.py:230-255 | unknown names are shown as they are, known names get distinct display names, and display naming is idempotent |
| Analysis.LessIrreflexive | analyse/energy_qos_analysis.py:688 | no string sorts before itself |
| Analysis.LessTransitive | analyse/energy_qos_analysis.py:688 | string order is transitive |
| Analysis.LessTotal | analyse/energy_qos_analysis.py:688 | any two distinct strings are ordered |
| Analysis.LeastOf | analyse/energy_qos_analysis.py:688 | the least string of a non-empty set |
| Analysis.Sorted | analyse/energy_qos_analysis.py:688 | the set's strings in strictly increasing order, each once |
| Analysis.SplitKeys | analyse/energy_qos_analysis.py:679-686 | ValueError exactly when some key does not split in two; otherwise exactly the set of power parts and the set of assignment parts of the keys |
| Analysis.AvailableStrategies | analyse/energy_qos_analysis.py:669-688 | ValueError exactly when a shared key does not split in two; otherwise the sorted power and assignment parts of the shared keys |
| Analysis.BuiltKeyListed | analyse/energy_qos_analysis.py:669-688 | both parts of every built key are listed |
| Commands.CommandParts | scripts/run_simulations.py:37-55 | five base parts, two more for an optimiser, one more for Q-learning |
| Commands.GroupsMakeParts | scripts/run_simulations.py:39-55 | each argument group is non-empty and joins into its command part |
| Commands.BaseSpaceFree | scripts/run_simulations.py:39-46 | the base arguments hold no space when the strategy names hold none |
| Commands.ExtraSpaceFree | scripts/run_simulations.py:48-55 | the extra arguments hold no space |
| Commands.SpaceFreeAppend | scripts/run_simulations.py:39-55 | space-free groups stay space-free when joined |
| Commands.CommandArguments | scripts/run_simulations.py:37-57 | the command splits at its spaces into exactly the intended arguments: each value after its flag, 5 generations of 30 for an optimiser, and the Q-table for the user count for Q-learning |
| Export.EnergyRowsOf | src/optimisation_ntn/utils/data_export.py:36-38 | three rows tagged BS, HAPS and LEO, in that order |
| Export.SuccessTable | src/optimisation_ntn/utils/data_export.py:35 | one (requests, success rate) row per iteration, in order |
| Export.EnergyTable | src/optimisation_ntn/utils/data_export.py:36-38 | three rows per iteration |
| Export.CompletedTable | src/optimisation_ntn/utils/data_export.py:39-41 | one (requests, total energy) row per iteration, in order |
| Export.EnergyTableRows | src/optimisation_ntn/utils/data_export.py:36-38 | rows 3i to 3i + 2 are iteration i's tagged rows |
| Export.EnergyAppend | src/optimisation_ntn/utils/data_export.py:36-41 | energy sums over joined tables add up |
| Export.CollectGraphData | src/optimisation_ntn/utils/data_export.py:22-41 | KeyError exactly when an iteration lacks a field; otherwise the three tables |
| Export.EnergyConserved | src/optimisation_ntn/utils/data_export.py:36-41 | the energy table and the completed table carry the same total energy |
| Text.Split | analyse/energy_qos_analysis.py:32 | `str.split` always gives at least one field |
| Text.SplitJoin | analyse/energy_qos_analysis.py:32 | joining the fields of a split with the separator gives the string back |
| Text.SplitPrefix | analyse/energy_qos_analysis.py:32 | a field free of the separator runs on into the next field |
| Text.JoinSplit | scripts/run_simulations.py:57 | splitting a join gives the parts back when no part holds the separator |
| Text.JoinAppend | scripts/run_simulations.py:57 | joining two lists puts one separator between their joins |
| Text.Flatten | scripts/run_simulations.py:40-55 | non-empty groups flatten to at least as many words as groups |
| Text.JoinEach | scripts/run_simulations.py:40-55 | each group joined on its own |
| Text.JoinFlatten | scripts/run_simulations.py:57 | joining the joined groups is joining all their words |
| Text.FlattenAvoids | scripts/run_simulations.py:57 | a character in no group's words is in none of the flattened words |
| Text.RemoveAllIsSplitJoin | analyse/energy_qos_analysis.py:39 | `replace(pat, "")` is the split joined with nothing |
| Text.RemoveSuffix | analyse/energy_qos_analysis.py:39 | removing the ".csv" suffix of a field without dots leaves the field |
| Text.Decimal | scripts/run_simulations.py:44 | the decimal digits of a natural number |
| Text.DecimalValue | scripts/run_simulations.py:44 | the digits of a number have that number as their value |
| Text.IntString | scripts/run_simulations.py:44 | `str(i)` has no space, underscore or dot, and digits after an optional sign |
| Text.ParseInt | analyse/energy_qos_analysis.py:39 | `int()` failures are ValueError |
| Text.IntStringRoundTrip | analyse/energy_qos_analysis.py:39 | `int(str(i)) == i` |

## Left out

- Abstract base classes (`AssignmentStrategy`, `PowerStrategy`, `PowerStateStrategy`, `OptimizationStrategy`, `BaseNode` as ABC): each strategy is its own method or class, and dispatch by class is modelled with tagged datatypes in `Factories`.
- Radio physics is opaque. SNR, path loss, gain, `log2`, the free-space formula and `sqrt` distances are left out; capacity is a positive parameter, and the dBm-to-watt conversion is a function parameter.
- Randomness: `random.sample`, `random.choice`, `np.random.*` and the Poisson draw become parameters or nondeterministic choices within their documented ranges. The seeding of the request matrix (seed 42) and the retry loop of up to 1000 draws are left out; the accepted draw is a parameter.
- The GUI, plotting, pandas CSV loading, CSV writing, pickle loading and saving of the Q-table, and the process pool of the simulation launcher are I/O and are left out.
- Python floats: infinities are `None` bounds or a `NoNode` result, and NaN is modelled only where a mean can be NaN (`Optimisation.Float`). Rounding is not modelled, and reals are exact.
- Text.ParseInt: `int()` accepts only ASCII whitespace and ASCII digits here; Unicode digits and whitespace are not modelled, and neither are underscores between digits (`int("1_000")`), which the one caller never meets because it parses a field already split at "_".
- Analysis.AssignmentScore: follows the code, which multiplies the energy component by the success fraction (analyse/energy_qos_analysis.py:227). The docstring (lines 203-204) and the printed note (line 399) describe a sum, `0.5·(1 - ...) + 0.5·TS/100`, and the note also normalises by `E/Emax`. The documented sum is not modelled, because the ranking is computed from the product.
- Networks.Network.UpdateLinks: network.py builds links with keyword arguments (`total_bandwidth=`, `signal_power=`, ...) that `CommunicationLink.__init__` does not accept, so every link construction raises TypeError as written (see Findings: `Networks.UpdateLinksAsWrittenFails`). The model passes the same values in a `LinkConfig`, which is the evident intent.
- Links.CommunicationLink.Create: `find_compatible_antennas` runs before `add_destination`, so a failed link leaves the destinations unchanged. The model follows the code.
- LEO nodes: `leo.py` cannot be built as written (its constructor calls the base constructor with arguments it rejects), so there is no LEO constructor. The LEO kind is kept for the typed views, and a link to a LEO fails because a LEO has no antennas.
- Networks.Network.Tick: promises the per-node ledger and the IndexError outcome only. Energy monotonicity is proved per phase (`BaseNode.Tick`, `TickNodes`, `TickLinks`, `Exchange`) and is not composed across the three phases.
- Factories.PowerFactory.GetStrategy: returns the registered class. The keyword arguments passed on to the constructor are not modelled.
- Trainer.QLearningTrainer: `train` runs whole simulations, so only `episode_reward` and the epsilon schedule are modelled.
- `Request` positions, the LEO orbit, `Earth`, the request generator and the simulation driver (`simulation.py`, `main.py`, `training_script.py`) are not part of this model, nor are the older duplicate modules (`network.py`, `network/request.py`, `users/`, `utils/communication_link.py`, `utils/position.py`).
- Debug printing is left out.

## Findings

| source | as written | input that shows it | evidently intended | confidence | as-written member | corrected member |
|---|---|---|---|---|---|---|
| src/optimisation_ntn/algorithms/assignment/qlearning.py:250-251 | `calculate_request_reward` compares the completion time in ticks with `qos_limit`, which is in seconds (`update_status` multiplies by `tick_time`, src/optimisation_ntn/networks/request.py:99) | a request created at tick 0 and completed at tick 5, with tick time 0.1 s and QoS limit 0.5 s, on a base station: it is on time, yet it gets the late penalty, so its reward is 100 lower | compare `(tick - creation_time) * tick_time` with `qos_limit` | not executed | QLearning.RequestRewardUnitMismatch | QLearning.RequestRewardShape |
| src/optimisation_ntn/matrices/decision_matrices.py:149-153 | `get_snapshot` calls `.copy()` on every stored value, but `AllOnStrategy.optimize` and `RandomStrategy.optimize` store a `Matrix` object, which has no `copy` (src/optimisation_ntn/algorithms/optimization_strategy.py:58) | any snapshot taken after `AllOnStrategy.optimize` raises AttributeError | copy the grid of a `Matrix` (its `data`) | not executed | Optimisation.SnapshotAfterAllOn | Optimisation.IntendedSnapshotAfterAllOn |
| src/optimisation_ntn/networks/network.py:76-155 | every `CommunicationLink(...)` in `_update_communication_links` passes the two end nodes by position and `total_bandwidth`, `signal_power`, `carrier_frequency` and `debug` by keyword, but the constructor takes only `node_a`, `node_b` and `config` (src/optimisation_ntn/networks/communication_link.py:29-34) | a network holding a user device, to which a HAPS is added: `add_node` rebuilds the links and the first construction raises TypeError | build a `LinkConfig` from those values and pass it as `config` | not executed | Networks.UpdateLinksAsWrittenFails | Networks.Network.UpdateLinks |
