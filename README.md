# SDN-ECCKN sensor node model

A Dafny model of the per-node energy and lifecycle logic of the SDN-ECCKN wireless
sensor network simulation, and of the small helpers it depends on.

- `state.dfy`, module `States`: the lifecycle states INIT, AWAKE, SLEEP and DEAD, and the
  transition check `State.is_valid`. The check returns `Some(true)`, `Some(false)` or `None`,
  following Python's `True` / `False` / fall-through `None`.
- `sensor.dfy`, module `Sensors`: the `Sensor` class. Its fields are those of the Python
  object. State changes go through `UpdateState` and its `is_valid` check, except for one:
  `UpdateProperties` on the controller sets AWAKE directly. Transmit and receive charge
  `E_elec*l + eps_amp*l*d²` for sending and `E_elec*l` for receiving. There is a per-phase
  neighbour map for each phase, the per-round `UpdateProperties`, and the "closer to
  (100, 100)" order `Less`. A transmission changes a second object, the target, through its
  `Receive`. The target may even be the sender itself. `Transmit`'s contract covers that
  case through the two-state predicates `SentTo`, `Delivered` and `Untouched`.
- `utils.dfy`, module `Utils`: the distance between two sensors (squared), and the weighted
  edge list that `complete_graph_from_list` hands to the graph library. It also holds the
  pair enumeration of `itertools.combinations` that the edge list is built from.
- `dupes.dfy`, module `Dupes`: `get_dupes`, as the code has it and in corrected form. Also the
  `sorted` call it starts with, modelled as a stable insertion sort on `Less`.

`State` and `get_dupes` both live in utils.py. They get modules of their own here because of
the import order. `Sensors` imports `States`, and `Utils` imports `Sensors`, so `State` cannot
sit in `Utils`. `get_dupes` is kept apart from the graph helpers so that each module's proofs
stay small.

Where the design description and the code differ, the model follows the code:

- A beacon-phase `transmit` is guarded by `target_main`, not `target_beacon`.
  - With `target_main` None, nothing is sent.
  - With `target_main` set, `target_beacon` None and enough energy, the energy is deducted.
    The call `target_beacon.receive` then raises. `Transmit` reports this as `raised`.
- A main-phase call from a node that is not AWAKE falls through to the beacon branch.
- `receive` on a DEAD controller still adds 200001.
- `update_properties` on the controller sets AWAKE even from DEAD. It does not check `is_valid`.
- `die()` on an INIT node does nothing.
- `neighbors_main` is never cleared. `update_properties` therefore sets `l_main` to the number of
  distinct senders ever recorded in the main phase (sensor.py:54), not to a per-round count.
  `UpdateProperties` does the same.
- The controller's own node is created with `controller=False` (controller.py:31). That file
  is not part of this model.

## Model

| member | source | states |
|---|---|---|
| `States.IsValid` | utils.py:55-66 | The result is `True` exactly for INIT→{AWAKE,SLEEP}, {AWAKE,SLEEP}→{AWAKE,SLEEP,DEAD} and DEAD→DEAD. It is `False` exactly from DEAD towards another state. It is `None` for every other pair. |
| `States.NothingReturnsToInit` | utils.py:57-66 | No valid transition ends in INIT. |
| `States.DeadIsAbsorbing` | utils.py:63-66 | From DEAD, the only valid target is DEAD. |
| `States.InitCannotDie` | utils.py:57-59 | INIT→DEAD is not a valid transition. |
| `Sensors.TxCost` | sensor.py:120-138 | The cost `E_elec*l + eps_amp*l*d²` of both transmit branches is at least 0 when E_elec, eps_amp and the load are non-negative. At distance 0 only `E_elec*l` is paid. |
| `Sensors.TxCostMonotoneInLoad` | sensor.py:133-138 | At the same distance, a larger load never costs less. |
| `Sensors.Sensor.constructor` | sensor.py:7-33 | Sets the given energy (default 100001) and position, the controller flag (default false), state INIT, E_elec = eps_amp = 1, no targets, distances 0, both loads 1, empty neighbour maps, not isolated. |
| `Sensors.Sensor.UpdateState` | sensor.py:35-43 | The state becomes `new_state` exactly when `is_valid` returns True. Otherwise it is unchanged, and no other field is in the frame. |
| `Sensors.Sensor.UpdateProperties` | sensor.py:45-61 | Non-controller: `isolated` becomes (target_main is None), `l_main` becomes the size of the main neighbour map, and when energy ≤ 0 a DEAD transition is attempted through `is_valid`. Controller: `isolated` becomes false and the state becomes AWAKE unconditionally. |
| `Sensors.Sensor.UpdateEnergy` | sensor.py:70-75 | Energy grows by exactly the given amount, and nothing else changes. |
| `Sensors.Sensor.WakeUp` | sensor.py:77-81 | Attempts →AWAKE. A DEAD node stays DEAD. |
| `Sensors.Sensor.Sleep` | sensor.py:83-87 | Attempts →SLEEP. A DEAD node stays DEAD. |
| `Sensors.Sensor.Die` | sensor.py:89-94 | Attempts →DEAD. An INIT node stays INIT. |
| `Sensors.Sensor.SetTarget` | sensor.py:96-110 | Does nothing on a DEAD node or the controller. Otherwise it sets only the main pair or only the beacon pair, as `main` selects, and leaves the other pair as it was. |
| `Sensors.Sensor.Transmit` | sensor.py:112-142 | Details below the table. |
| `Sensors.Sensor.SendTo` | sensor.py:126-128 | The sender pays the cost, and then the target receives (sender name, remaining energy). |
| `Sensors.Sensor.Receive` | sensor.py:144-160 | Details below the table. |
| `Sensors.Sensor.GetPosition` | sensor.py:63-68 | No contract of its own. Returns `(pos_x, pos_y)`. `NameIdentifiesPosition` ties it to `GetName`. |
| `Sensors.Sensor.GetName` | sensor.py:162-166 | No contract of its own. The name is built from the position alone. `NameIdentifiesPosition` proves that names are equal exactly when positions are. |
| `Sensors.Sensor.IsAsleep` | sensor.py:168-175 | No contract of its own. True exactly in SLEEP. `StatusQueriesExclusive` proves that it excludes the other two queries. |
| `Sensors.Sensor.IsAwake` | sensor.py:177-184 | No contract of its own. True exactly in AWAKE. `StatusQueriesExclusive` proves that it excludes the other two queries. |
| `Sensors.Sensor.IsDead` | sensor.py:186-193 | No contract of its own. True exactly in DEAD. `StatusQueriesExclusive` proves that it excludes the other two queries. |
| `Sensors.Sensor.Less` | sensor.py:198-213 | No contract of its own. `__lt__` holds when this sensor is strictly closer to (100, 100). `LessIsStrictWeakOrder` proves the order laws that `sorted` relies on. |
| `Sensors.NameIdentifiesPosition` | sensor.py:162-166 | Two sensors have the same name exactly when they have the same position. |
| `Sensors.StatusQueriesExclusive` | sensor.py:168-193 | At most one of is_asleep, is_awake and is_dead holds. None holds exactly in INIT. |
| `Sensors.LessIsStrictWeakOrder` | sensor.py:198-213 | `__lt__` is irreflexive, asymmetric and transitive. Two sensors tie exactly when they are equally far from (100, 100). |
| `Utils.SqDistance` | utils.py:38-46 | The squared distance is non-negative. It is zero exactly when the two positions are equal. |
| `Utils.SqDistanceSymmetric` | utils.py:38-46 | The distance is symmetric. |
| `Utils.SqDistanceByName` | utils.py:18-20 | Sensors with equal names have equal distances. So a weight looked up through the name dictionary equals the weight of the listed endpoints. |
| `Utils.NodeAttr` | utils.py:9-10 | `dict(zip(names, nodes))` has as keys exactly the sensors' names. Each key maps to a sensor with that name. |
| `Utils.NodeAttrLastWins` | utils.py:9-10 | Each value of the dictionary is one of the listed sensors. A name maps to the last sensor in the list that carries it. |
| `Utils.CombinationsFacts` | utils.py:15-16 | `combinations(…, 2)` lists each index pair i<j<n exactly once, in lexicographic order: n(n-1)/2 pairs. |
| `Utils.CompleteEdgesShape` | utils.py:11-21 | The edge list has n(n-1)/2 edges and is empty for n ≤ 1. For every pair i<j there is an edge at the position of (i, j) in combinations order. No two edges come from the same pair. |
| `Utils.CompleteEdgesWeights` | utils.py:18-20 | Edge k joins the sensors of the k-th pair, in list order, and its weight is their distance. |
| `Utils.CompleteGraphNodes` | utils.py:8-23 | For n ≥ 2, the graph's nodes are exactly the sensors' names. For n ≤ 1, it has no nodes. |
| `Utils.CompleteGraphFromList` | utils.py:7-23 | The append loop over the name pairs builds exactly the reference edge list `CompleteEdges`. Its weights come from the name-keyed dictionary. |
| `Dupes.SortByRadius` | utils.py:27 | `sorted(c)` is ordered by distance to (100, 100) and is a permutation of `c`. |
| `Dupes.SortOfSorted` | utils.py:27 | `sorted` returns a list that is already in distance order unchanged. |
| `Dupes.GetDupes` | utils.py:26-35 | As written: raises exactly when two neighbours in sorted order share a name. Otherwise it yields nothing. |
| `Dupes.CorrectedReportsTwins` | utils.py:30-35 | Every sensor the corrected scan reports from pair i on starts a pair of neighbours with equal names. |
| `Dupes.CorrectedCoversTwins` | utils.py:30-35 | Every name shared by two neighbours from pair i on is reported, unless it is the name reported last before i. |
| `Dupes.CorrectedNoRepeats` | utils.py:30-35 | Two consecutive reports never share a name. The first report differs in name from the last one before i. |
| `Dupes.CorrectedDupesFacts` | utils.py:26-35 | From the start of the list: the scan reports nothing exactly when no neighbours share a name, reports only sensors that start such a pair, reports every such name, and never reports one name twice in a row. |
| `Dupes.ReturningNameReportedOnce` | utils.py:33-35 | For sorted sensors `[A, A, B, A, A]`, the corrected scan reports the first A and nothing else: the second A pair has the name reported last. |
| `Dupes.GetDupesCorrected` | utils.py:26-35 | With `r` None read as "nothing reported yet": details below the table. |
| `Dupes.DuplicatePositionMakesGetDupesRaise` | utils.py:29-33 | For two sensors at one position, the sorted list has an equal-name neighbour pair, so `get_dupes` raises. |
| `Dupes.TiedDuplicatesGoUnnoticed` | utils.py:27-31 | Only neighbours in distance order are compared. Two sensors at (100,110) separated by one at (110,100) share a name, yet no neighbours share one. |

`Sensors.Sensor.Transmit` states these cases:

- It changes nothing when the node is DEAD, is the controller, or has no `target_main`. This
  holds in both phases.
- Main phase from an AWAKE node:
  - If the cost `E_elec*l_main + eps_amp*l_main*d_main²` is at most the energy, the sender
    loses exactly that cost. `target_main` then receives (name, remaining energy) in the main
    phase.
  - Otherwise the energy is unchanged, `isolated` becomes true, and nothing is delivered.
- Any other passing call uses `l_beacon` and `d_beacon`.
  - If affordable, the same deduction happens and the delivery goes to `target_beacon`.
    When `target_beacon` is None the call raises after the deduction.
  - If it cannot afford the cost, nothing changes, and `isolated` is left alone.

`Sensors.Sensor.Receive` states these cases:

- A node that is not DEAD pays `E_elec*l_main` and records `neighbors_main[sender] := energy`
  when the call is main-phase and the node is AWAKE.
- Otherwise a node that is not DEAD pays `E_elec*l_beacon` and records into `neighbors_beacon`.
  There is no affordability check.
- A controller then gains 200001, even when it is DEAD.

`Dupes.GetDupesCorrected` states:

- Its loop builds exactly the reference list `CorrectedDupes(sorted(c), 0, None)`. That list reports
  `s[i]` exactly when `s[i]` and `s[i+1]` share a name and either nothing has been reported yet or
  the last report has another name. `ReturningNameReportedOnce` shows the sorted list
  `[A, A, B, A, A]`, which arises when B ties in distance with the A sensors. The scan reports the
  first A only.
- The result is empty exactly when no two neighbours in sorted order share a name.
- Every reported sensor starts such a pair.
- Every name of such a pair is reported.
- No two consecutive reports share a name.

## Left out

- The random default position of `Sensor.__init__` (sensor.py:15-16): the constructor takes the position as a parameter. The other two defaults, the energy 100001 (`DEFAULT_ENERGY`) and `controller=False`, are kept as default parameter values.
- The `get_name` string formatting and `__repr__`: a name is the position pair itself, which has the one property used, being injective in the position.
- Square roots: `calc_sensor_distance` and the edge weights are squared distances. `__lt__` compares squared distances, which gives the same order as comparing their square roots.
- `__lt__` returning None for an argument that is not a `Sensor`: in the typed model the argument is always a sensor.
- Floating point: energies, costs and distances are exact reals, so Python's float rounding is not modelled.
- `Dupes.SortByRadius`: proves that `sorted` orders its input and permutes it, not that it is stable. The insertion sort is stable by construction, as Python's `sorted` is.
- The networkx graph object, `add_weighted_edges_from`'s merging of repeated edges and self-loops, and `set_node_attributes`: only the weighted edge triples handed to the library are modelled.
- The `permutations` branch of `complete_graph_from_list` (utils.py:12-13): the graph it tests is always the undirected `empty_graph(0)`, so that branch never runs.
- The laziness of the `get_dupes` generator: the model returns all that it yields at once, and as written it yields nothing before it raises.
- controller.py:
  - The retry loop over random positions and the pandas frame (controller.py:38-54).
  - `update_topology_shortest_path`, a copy of the graph followed by the library's all-pairs Dijkstra (controller.py:61-79). The energy filter inside it is commented out (controller.py:71-74).
  - The feasible subgraph and the sleep/wake scheduling procedure: neither exists in the code, so neither is modelled.
- main.py is not part of this model. It is the file-writing driver loop, and it calls controller methods that controller.py does not define.
- PV.py is not part of this model. It is a floating-point sine-based irradiance formula.

## Findings

| source | as written | input that shows it | evidently intended | confidence | as-written member | corrected member |
|---|---|---|---|---|---|---|
| utils.py:29-33 | `r = None`, then at the first neighbour pair with equal names `k.get_name() != r.get_name()` calls `get_name` on None. The generator raises instead of yielding. controller.py:40-50 calls it to decide whether to draw new random positions. That loop already fails earlier, at controller.py:42, which reads a `name` attribute that `Sensor` does not define. Once lines 42 and 46 are fixed, this crash would abort the loop instead of retrying. | two sensors at the same position, e.g. both at (5, 5) | `r` None should mean "nothing reported yet": report the first sensor of a pair of neighbours with equal names unless the last report has that name | high (not executed) | `Dupes.GetDupes`, `Dupes.DuplicatePositionMakesGetDupesRaise` | `Dupes.GetDupesCorrected` |
