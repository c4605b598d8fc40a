# AutoDepGraph calibration graph, modelled in Dafny

AutoDepGraph organises the calibration of an experiment as a graph. Each
node is a calibration that depends on other nodes. A node is in one of five
states: `good`, `needs calibration`, `bad`, `unknown` or `active`. Executing
a node that is not `good` executes its dependencies first. If they all come
back satisfied, the node runs its check routines and then its calibration
routines. Otherwise it is marked `unknown`.

This project models the following:

- `node.py`: the node and its recursive executor (`execute_node`, `check_dependencies`, `check`, `calibrate`).
- `graph.py`:
  - the node container (`add_node`, `snapshot`);
  - the merge rule of `load_graph`;
  - the stub node defined in the same file.
- `graph_v2.py`: the networkx-based DAG (`add_node` defaults, `add_edge`, `set_all_node_states`) and the resolution of routine identifiers (`_get_function`, `get_function_from_module`).
- `visualization.py`: the state colour map and the conversion of a snapshot into a directed graph.

Files:

| file | module | contents |
|---|---|---|
| `wrappers.dfy` | `Wrappers` | `Option` and `Result` |
| `states.dfy` | `States` | the five states and the strings the program stores for them |
| `node.dfy` | `Node` | the node, the routine tables, `check`, `calibrate`, `execute_node` and `check_dependencies` |
| `scenarios.dfy` | `Scenarios` | the three-node graph of the node-logic tests, run through the model |
| `graph.dfy` | `Graph` | the node container, its snapshot, `load_graph`, the stub node |
| `pystrings.dfy` | `PyStrings` | Python's `str.rfind`, slicing and `str.split` on one character |
| `graph_v2.dfy` | `GraphV2` | the DAG with attribute dictionaries, and routine lookup |
| `visualization.dfy` | `Visualization` | `state_cmap`, `get_state_col_map`, `snapshot_to_nxGraph` |

Modelling choices:

- **Nodes.** Open nodes form a `World`, a map from name to node. This is the registry that `find_instrument` consults. A node that is not open is an error (`MissingNode`), not a precondition.
- **List parameters.** The three list parameters of a node have no initial value, so they are `Option`s. Iterating one that is still `None` is the error `UnsetParameter`.
- **Routines.** Check and calibration routines are given by table (`Node.Routines`). Each check routine maps to the string it returns, and each calibration routine maps to whether its return value is truthy. `result = (f() and result)` stays the literal `True` only while every return value is truthy, so `result is True` means exactly that (`node.py:87-89`). A name missing from a table is the error `UnknownRoutine`.
- **Termination.** Execution recurses through dependencies. On a cycle of nodes that are not `good` it does not terminate, and the program never checks for cycles; a cycle cut by a `good` node, or one no executed node reaches, is harmless. The model takes a `rank` that decreases along every dependency (`Node.Ranked`) as a precondition of execution, which excludes every cyclic graph (see Left out).
- **Traces.** Execution also produces a trace of `Executed`, `Checked` and `Calibrated` events. This is how "each routine once, in order" and "no routine of an unsatisfied node runs" are stated.
- **The dependency call.** `check_dependencies` compares `depNode()` with `'good'`. `__call__` does not return what `execute_node` returns, so that comparison can never succeed. The model has both readings, selected by `Node.CallMode`: `AsWritten` follows the code and `Intended` compares the dependency's state. `Intended` is what the docstring of `check_dependencies` and the node-logic tests describe (see Findings).
- **The stub node.** The stub `execute_node` in `graph.py` tests `self.state == 'bad'`. `self.state` is the qcodes parameter object that `add_parameter` creates (`graph.py:70`), not its value, so this compares an object with a string. That test is never true, so the stub `check_dependencies` (which always returns `True`) is never reached. `Graph.StubExecute` therefore goes straight to the stub calibration.

## Model

| member | source | states |
|---|---|---|
| States.Parse | autodepgraph/node.py:12-16 | the rule of the state enum validator: a string is accepted as a state only if it is the stored name of that state (the validator is stated here on its own; loading a snapshot takes states already parsed, see Left out) |
| States.ParseName | autodepgraph/node.py:12-16 | every state's stored name parses back to that state (the validator admits exactly the five names) |
| States.NameInjective | autodepgraph/node.py:14-15 | no two states share a stored name |
| Node.NewNode | autodepgraph/node.py:9-28 | a new node starts `unknown`, with its dependency, check and calibration lists unset |
| Node.Resolve | autodepgraph/node.py:84-85 | looking routines up by name succeeds exactly when every name exists, gives each name's routine in order, and otherwise reports a missing name |
| Node.Flags | autodepgraph/node.py:108-116 | after the loop, `broken` is set exactly when some check returned "bad" and `needsCalib` exactly when some check returned "needs calibration" |
| Node.Aggregate | autodepgraph/node.py:118-123 | the verdict is `bad` iff some check said "bad"; `needs calibration` iff none said "bad" and one said "needs calibration"; `good` iff neither occurred; never `active` |
| Node.Verdict | autodepgraph/node.py:118-123 | the three-way branch never leaves the node `active`; it gives `bad` iff a check failed, `needs calibration` iff one asked for calibration and none failed, and `good` iff neither |
| Node.Satisfied | autodepgraph/node.py:69 | how a dependency's answer is judged: never satisfied as written, satisfied iff `good` with the intended call (stated by Node.LiteralCallNeverSatisfies and Node.CheckDependencies) |
| Node.IrrelevantResultIgnored | autodepgraph/node.py:113-116 | inserting any other result anywhere among the results does not change the verdict |
| Node.Check | autodepgraph/node.py:95-125 | `check` succeeds iff the check list is set and every routine exists; it invokes exactly the listed routines in order; only the state changes; the state is `bad` iff a routine returned "bad", `needs calibration` iff none returned "bad" and one returned "needs calibration", and `good` iff none returned either |
| Node.Conjoin | autodepgraph/node.py:83-89 | the running `f() and result` ends the literal `True` iff every calibration returned a truthy value |
| Node.Calibrate | autodepgraph/node.py:74-93 | `calibrate` succeeds iff the calibration list is set and every routine exists; it invokes every routine in order, even after a failure; only the state changes; the state ends `good` iff every routine succeeded, else `bad` |
| Node.Settle | autodepgraph/node.py:47-55 | a satisfied node runs its check routines and then its calibration routines, and ends `good` or `bad` by the calibrations alone; an unsatisfied node becomes `unknown` with no routine run; no other node changes; a satisfied node succeeds iff its check and calibration lists are set and every routine in them exists |
| Node.Execute | autodepgraph/node.py:33-57 | a `good` node is returned untouched; a node that is not `good` and has no dependency list fails on it; when a run succeeds, the node ends `good`, `bad` or `unknown`; only states change anywhere; a node the trace does not record as executed, and any node that was `good`, is unchanged; the trace starts with the node and touches only nodes ranked no higher |
| Node.CheckDependencies | autodepgraph/node.py:59-72 | every dependency is executed, in order and without short-circuit; a missing one is an error; the result is satisfied iff every dependency is satisfied after its own execution; an empty list is satisfied with no effect; a node not executed, and any node that was `good`, is unchanged |
| Node.CheckDependenciesStep | autodepgraph/node.py:67-70 | one loop step for any routines: a missing first dependency is an error; otherwise the first dependency is executed, its error is passed on, and the rest run in the world it left; the run's events, states after execution and satisfaction are the first's followed by the rest's |
| Node.ExecuteSatisfied | autodepgraph/node.py:41-57 | with satisfied dependencies, the trace is the node, the dependencies' events, its checks, then its calibrations; the node ends `good` iff all calibrations succeed, whatever the checks said; the world is the one the dependencies left with only the node's state changed |
| Node.ExecuteOk | autodepgraph/node.py:41-57 | for a node that is not `good` and has a dependency list, execution succeeds iff the dependency call succeeds and the node's own check and calibration then succeed |
| Node.ExecuteStep | autodepgraph/node.py:41-57 | an execution of a node that is not `good` is its dependency call followed by its own check and calibration, run in the world the dependencies left |
| Node.SettleSatisfied | autodepgraph/node.py:48-49 | check then calibrate depend only on the node's lists, not on the state the dependencies left it in |
| Node.ExecuteWorld | autodepgraph/node.py:47-55 | after its dependencies ran, execution changes only the node's own state |
| Node.ExecuteUnsatisfied | autodepgraph/node.py:50-55 | with an unsatisfied dependency, the node ends `unknown`, no other node changes after the dependencies ran, and none of its own routines runs |
| Node.LiteralCallNeverSatisfies | autodepgraph/node.py:30-31 | as written, the dependency call yields `None`, so a non-empty dependency list is never satisfied |
| Node.LiteralExecuteEndsUnknown | autodepgraph/node.py:30-31 | as written, a node that is not `good` and has a dependency always ends `unknown` |
| Scenarios.SettleSingle | autodepgraph/node.py:47-49 | a node with one known check and one known calibration, when satisfied, ends as its calibration routine says, after one check and one calibration |
| Scenarios.ExecuteSingleSatisfied | autodepgraph/node.py:41-49 | a node with one check and one calibration whose dependency call was satisfied records itself, its dependencies' events, its check and its calibration, and ends as the calibration says |
| Scenarios.ExecuteUnsatisfiedRun | autodepgraph/node.py:47-55 | a node whose dependency call was not satisfied ends `unknown` after its dependencies' events alone |
| Scenarios.RunLeaf | autodepgraph/node.py:41-49 | a node with no dependencies, one check and one calibration is checked, then calibrated, and ends as the calibration says |
| Scenarios.RunAfterGoodDependency | autodepgraph/node.py:47-55 | a node whose one dependency ends `good` ends with its calibration's outcome under the intended call and `unknown` as written |
| Scenarios.TwoDependencies | autodepgraph/node.py:67-70 | when the second dependency is `good` once the first has run, it is executed with no effect and both outcomes are recorded in order |
| Scenarios.SettleAfterDependencies | autodepgraph/node.py:47-55 | after its dependencies ran, a node ends with its calibration's outcome if they were satisfied and `unknown` otherwise |
| Scenarios.RunC | autodepgraph/tests/test_node_logic.py:21-23 | C, which has no dependencies, is checked and calibrated to `good` |
| Scenarios.RunB | autodepgraph/tests/test_node_logic.py:21-23 | B executes C, then ends with its own calibration's outcome (intended reading) or `unknown` (as written) |
| Scenarios.RerunGood | autodepgraph/node.py:41-43 | a dependency that is already `good` is executed with no effect and counts as satisfied |
| Scenarios.RunDependenciesOfA | autodepgraph/tests/test_node_logic.py:21-23 | A's dependency call runs B and then reruns C, which is already `good` |
| Scenarios.ThreeNodeScenario | autodepgraph/tests/test_node_logic.py:39-147 | in the three-node test graph C ends `good`; with the intended call, B ends with its calibration's outcome and A is `good` iff B is, else `unknown`; as written, A and B end `unknown` |
| Scenarios.AllGoodTest | autodepgraph/tests/test_node_logic.py:39-92 | test_all_good and test_all_need_calib, running `execute_node()` on A with the intended call: all three nodes end `good` |
| Scenarios.CalibrationBadTest | autodepgraph/tests/test_node_logic.py:121-147 | test_B_calibration_bad, running `execute_node()` on A with the intended call: B ends `bad`, A `unknown` and C `good` |
| Scenarios.CheckBadTest | autodepgraph/tests/test_node_logic.py:94-119 | test_B_check_bad, running `execute_node()` on A with the intended call: because calibration runs regardless of the check, B and A end `good` (the test expects B `bad` and A `unknown`; as written both end `unknown`) |
| Scenarios.AsWrittenAllGoodTest | autodepgraph/node.py:30-31 | with the call as written, the test_all_good graph leaves A and B `unknown` |
| Graph.AddNode | autodepgraph/graph.py:60-63 | the node is stored under its name, replacing any earlier node of that name; nothing else changes; every node stays under its own name |
| Graph.AddNodeIdempotent | autodepgraph/graph.py:60-63 | adding a node again changes nothing, and the node count grows only for a new name |
| Graph.AddingNodeTest | autodepgraph/tests/test_graph.py:19-31 | adding A three times to an empty graph leaves exactly `{A: A}` |
| Graph.SnapshotOf | autodepgraph/graph.py:57 | a node's snapshot entry records its name, state and three lists; merging it back gives the node (Graph.MergeOwnSnapshot) |
| Graph.Snapshot | autodepgraph/graph.py:53-58 | the snapshot has one entry per node, under the node's name, with its state, and empty metadata |
| Graph.SaveGraphTest | autodepgraph/tests/test_graph.py:33-50 | after adding A, B and C the snapshot's nodes are exactly A, B and C |
| Graph.Merge | autodepgraph/graph.py:34-43 | each list parameter is overwritten by the entry's value unless that is `None`; the state is taken from the entry only when states are loaded and the entry has one |
| Graph.MergeOwnSnapshot | autodepgraph/graph.py:34-43 | merging a node's own snapshot back leaves it unchanged |
| Graph.MergeIdempotent | autodepgraph/graph.py:34-43 | merging the same entry twice is merging it once |
| Graph.LoadEntry | autodepgraph/graph.py:24-44 | one entry reuses the open node of its name or creates one, and the merged node is both in the graph and the open node |
| Graph.LoadGraph | autodepgraph/graph.py:23-44 | the entries are loaded one after another in file order, each into the open nodes the previous ones left, and every open node stays under its own name; what a load does is stated by the lemmas below |
| Graph.LoadGraphKeys | autodepgraph/graph.py:18-44 | the graph and the open nodes gain exactly the entries' names, and every node stays under its own name |
| Graph.LoadGraphFrame | autodepgraph/graph.py:18-44 | each loaded node is the open node of its name; graph nodes and open nodes no entry names are untouched |
| Graph.LoadOwnSnapshots | autodepgraph/graph.py:18-44 | loading the snapshots of the open nodes changes no open node |
| Graph.SnapshotRoundTrip | autodepgraph/tests/test_graph.py:33-50 | when every node of the graph is still open, loading the graph's own snapshot into an empty graph gives back the same graph, with or without states |
| Graph.MergeIntoFresh | autodepgraph/graph.py:29-43 | merging a node's snapshot into a new node of its name, or into what an earlier merge of it left, gives the node back, in state `unknown` when states are not loaded |
| Graph.LoadFresh | autodepgraph/graph.py:23-44 | loading snapshots of a graph's nodes over open nodes that are already reloaded copies of them leaves only reloaded copies open |
| Graph.FreshRegistry | autodepgraph/graph.py:23-44 | with no node open beforehand, loading the snapshots of all nodes of a graph opens exactly the reloaded copies of its nodes |
| Graph.FreshGraph | autodepgraph/graph.py:23-44 | with an empty graph and no open node beforehand, the graph afterwards holds exactly the open nodes |
| Graph.FreshLoad | autodepgraph/graph.py:23-44 | the two above together: the graph and the open nodes are both the reloaded copies of the saved graph's nodes |
| Graph.FreshRoundTrip | autodepgraph/tests/test_graph.py:33-50 | saving a graph and loading its snapshot, with states, into a session with no open node restores every node |
| Graph.FreshLoadWithoutState | autodepgraph/tests/test_graph.py:53-62 | the same load without states restores every node's name and lists, each in state `unknown` |
| Graph.LoadWithoutState | autodepgraph/tests/test_graph.py:53-62 | without state loading, a loaded node keeps the state of the open node, or is `unknown` if it is new |
| Graph.LoadWithState | autodepgraph/tests/test_graph.py:64-74 | with state loading, a node takes the state of the last entry naming it, when that entry has one |
| Graph.StubCalibrate | autodepgraph/graph.py:108-111 | the stub calibration makes the node `good` and returns `True` |
| Graph.StubCheck | autodepgraph/graph.py:113-115 | the stub check stores and returns `needs calibration` |
| Graph.StubExecute | autodepgraph/graph.py:92-103 | the stub execution always leaves the node `good`, and returns `True` exactly when it was already `good` |
| Graph.StubNodeTest | autodepgraph/tests/test_node.py:14-23 | each test on its own fresh stub node: it executes to `good`, and checking it stores and returns `needs calibration` |
| Graph.SharedStubNode | autodepgraph/tests/test_node.py:7-23 | on the shared node, after test_checking_node the state is no longer `unknown`, and executing still ends `good` |
| PyStrings.RFind | autodepgraph/graph_v2.py:100 | `rfind` gives -1 iff the character is absent, else the index of its last occurrence |
| PyStrings.SliceTo | autodepgraph/graph_v2.py:101 | `s[:k]`: the first `k` characters for `0 <= k <= len(s)`, all but the last `-k` for negative `k`, empty below `-len(s)`, the whole string above `len(s)` |
| PyStrings.SliceFrom | autodepgraph/graph_v2.py:103 | `s[k:]` for non-negative `k`, empty past the end |
| PyStrings.Split | autodepgraph/graph_v2.py:90 | `split` on a character gives one more piece than there are separators, no piece contains one, and joining the pieces restores the string |
| GraphV2.InsertNode | autodepgraph/graph_v2.py:46 | networkx `add_node` creates the node with the attributes, or updates an existing node's attributes while keeping the others |
| GraphV2.AddNodeAsWritten | autodepgraph/graph_v2.py:28-46 | as written, the stored state is the supplied calibration timeout if there is one, else "unknown"; the timeout, calibration and check defaults, the other supplied attributes and every other node are as in the corrected `add_node` |
| GraphV2.AsWrittenIsMisplacedState | autodepgraph/graph_v2.py:34-42 | the attributes as written are the intended ones for a call whose state is the supplied timeout, or "unknown" |
| GraphV2.AddNodeAsWrittenIsAddNode | autodepgraph/graph_v2.py:28-46 | `add_node` as written is the corrected `add_node` with the state attribute replaced by the timeout, or "unknown" |
| GraphV2.AddNodeAsWrittenMisplacesState | autodepgraph/graph_v2.py:34 | as written, a timeout of 10.0 becomes the state, and a supplied state "good" is replaced by "unknown" |
| GraphV2.DefaultsAsWritten | autodepgraph/graph_v2.py:34-42 | the attribute dictionary as written, with the state read from the timeout (stated by GraphV2.AsWrittenIsMisplacedState and GraphV2.AddNodeAsWritten) |
| GraphV2.Defaults | autodepgraph/graph_v2.py:34-42 | the attribute dictionary with the state read from `state` (stated by GraphV2.DefaultsFacts) |
| GraphV2.DefaultsFacts | autodepgraph/graph_v2.py:33-42 | the defaults keep every supplied attribute and always provide a state, a timeout, a calibration and a check, each the supplied value when there is one (the state read from `state`, see Findings) |
| GraphV2.AddNode | autodepgraph/graph_v2.py:28-46 | the node exists afterwards with every supplied attribute, and with state "unknown", an infinite timeout, the not-implemented calibration and the always-needs-calibration check unless supplied; no other node or edge changes |
| GraphV2.AddEdge | autodepgraph/graph_v2.py:48-57 | an edge is added iff both endpoints are already nodes; otherwise the first missing endpoint is reported and nothing changes |
| GraphV2.AddEdgeAllowsCycle | autodepgraph/graph_v2.py:48-57 | nothing prevents an edge that closes a cycle |
| GraphV2.SetAllNodeStates | autodepgraph/graph_v2.py:67-69 | every node's state becomes the value given; no other attribute, node or edge changes |
| GraphV2.SetAllNodeStatesLastWins | autodepgraph/graph_v2.py:67-69 | setting all states twice is the same as setting them to the second value |
| GraphV2.ModuleSplit | autodepgraph/graph_v2.py:97-104 | with a dot, the module path and function name rejoined by a dot give the identifier back and the function name has no dot; without one, the function name is the whole identifier and the module path is all but its last character |
| GraphV2.GetFunctionAsWritten | autodepgraph/graph_v2.py:84-95 | as written, every call raises `NameError` for `types` |
| GraphV2.GetFunction | autodepgraph/graph_v2.py:84-95 | a function object is used as is; an identifier never resolves to a function object, and succeeds iff it has a dot; with exactly one dot it is the instrument method when that instrument is open and has the attribute, else the module function named by the split at the last dot; with two or more dots it is always the module function; no dot leaves `f` unbound |
| GraphV2.OneDotSplit | autodepgraph/graph_v2.py:90 | splitting on dots gives two pieces iff there is exactly one dot, and then the pieces are the module path and the function name of the split at the last dot |
| GraphV2.InstrumentMethodFirst | autodepgraph/graph_v2.py:88-92 | `instrument.method`, where the instrument is open and has the attribute, resolves to that method |
| Visualization.Colour | autodepgraph/visualization.py:5-10 | the colour of each state (stated by Visualization.ColoursDistinct) |
| Visualization.StateColMap | autodepgraph/visualization.py:13-23 | the colour map built node by node in iteration order (stated by Visualization.StateColMapFails and Visualization.StateColMapColours) |
| Visualization.ColoursDistinct | autodepgraph/visualization.py:5-10 | no two states share a colour |
| Visualization.StateColMapFails | autodepgraph/visualization.py:13-23 | the colour map succeeds iff every node has a state; otherwise it fails at the first node without one |
| Visualization.StateColMapColours | autodepgraph/visualization.py:13-23 | when every node has a state, the colour map has exactly the inner node names as keys, each with the colour of the last node carrying that name |
| Visualization.SnapshotColours | autodepgraph/visualization.py:13-23 | on a graph's snapshot, in any iteration order, every node gets the colour of its state |
| Visualization.SnapshotToDiGraphAsWritten | autodepgraph/visualization.py:26-38 | as written, any snapshot with a node fails on the missing `parents` parameter; only the empty snapshot converts |
| Visualization.SnapshotToDiGraph | autodepgraph/visualization.py:26-38 | the conversion with the `dependencies` parameter read (stated by the three lemmas below) |
| Visualization.SnapshotToDiGraphFails | autodepgraph/visualization.py:26-38 | the graph is built iff every node's dependencies are set; otherwise it fails at the first node whose are not |
| Visualization.SnapshotToDiGraphEdges | autodepgraph/visualization.py:35-37 | the edges are exactly the pairs (node key, one of that node's dependencies) |
| Visualization.SnapshotToDiGraphNodes | autodepgraph/visualization.py:33-37 | the nodes are exactly the snapshot keys together with every dependency |
| Visualization.EdgesFollowDependencies | autodepgraph/visualization.py:33-37 | every snapshot key is a node, and every edge starts at a key and joins two nodes |
| Visualization.NoDependenciesNoEdges | autodepgraph/visualization.py:33-37 | when no node has dependencies, the graph has the keys as nodes and no edges |

## Left out

- Reading and writing YAML files (`load_graph`'s `open`, `save_graph`). A snapshot is taken as already parsed, a list of node entries in file order.
- The qcodes instrument machinery. Parameter validators are left out beyond the five-state enum. Reopening a closed instrument (`graph.py:27-29`) is left out, because the model has no closed instruments.
- Routines that raise, such as `NotImplementedCalibration`, are left out, because the routine tables hold return values only. So is a node left `active` when a routine raises mid-way.
- Verbose printing and logging: they have no effect on state.
- `get_function_from_module`'s `import_module` and `getattr`: `GraphV2.ModuleSplit` computes the module path and the function name, but not the import.
- `draw_mpl`, `draw_graph_mpl` and the graph layouts, because they only draw.
- The graph_v2 `execute_node` and `check_node`, because their bodies are `pass`.
- Edge attributes in graph_v2, because the code passes them to networkx unchanged.
- The `calibration_timeout` value `numpy.inf`, which is a marker (`GraphV2.Infinite`) with no arithmetic.
- Retry limits, execution counters, staleness and tolerance handling, because none of the modelled files implements them.
- The pyqtgraph visualisation, the test-graph writer and the dummy qubit calibration, because they are outside the modelled core.
- Node.Execute: requires a `rank` that decreases along dependencies, and so excludes every world whose dependency lists contain a cycle. That includes cyclic worlds the program finishes normally, such as a cycle cut by a node that is already `good` (A `unknown` depending on B, B `good` depending on A) or a cycle no executed node reaches. On a cycle through nodes that are not `good` the program recurses until the interpreter's recursion limit; that is not modelled either.
- Node.Check: an `Err` result carries no world, so the `active` state that `check()` sets (`node.py:107`) before `getattr` raises for an unknown routine (`node.py:111`) is not modelled.
- Node.Calibrate: an `Err` result carries no world, so the `active` state that `calibrate()` sets (`node.py:82`) before `getattr` raises for an unknown routine (`node.py:85`) is not modelled.
- Node.CheckDependencies: an `Err` result carries no world, so the effects of the dependencies executed before `find_instrument` raises for a missing one (`node.py:68`) are not modelled.
- Node.Execute: likewise, an `Err` result does not carry the states that earlier dependencies, checks and calibrations had already set.
- Graph.Merge: a snapshot state is taken to be one of the five states. The validator that makes `node.set` reject any other string (`graph.py:43` with the enum at `graph.py:72-73`) is not modelled.
- The default check routine of graph_v2 names `check_functions.always_needs_calibration`, which the check-function module does not define. The model keeps the default as a string and never resolves module functions, so it cannot tell.
- The routine modules `node.py` imports, `autodepgraph.check_functions` and `autodepgraph.calibrate_functions` (`node.py:2-3`), are not part of this model. `Scenarios.TestRoutines` takes the constants of `node_functions/check_functions.py` and `node_functions/calibration_functions.py` in their place, so the scenario outcomes assume those modules define the same routines.
- Graph.StubCheckDependencies: the stub always returns `True`. Since it is never reached (see above) it has no row.

## Findings

The node-logic tests also disagree with the code apart from these rows:

- Every test starts the run with `node_a(verbose=True)`, but `__call__` takes no argument besides `self`, so the call raises `TypeError` before anything executes. The scenarios run `execute_node()` on A instead, with the intended dependency call.
- test_B_check_bad expects B to end `bad`. But `execute_node` calls `calibrate()` after `check()` unconditionally, and the calibration succeeds, so B ends `good` with the intended call (and `unknown` as written). The model follows the code (`Scenarios.CheckBadTest`).

| source | as written | input that shows it | evidently intended | confidence | as-written member | corrected member |
|---|---|---|---|---|---|---|
| autodepgraph/node.py:30-31 | `__call__` runs `execute_node()` but returns nothing, so `depNode() != 'good'` in `check_dependencies` is always true | the test_all_good graph: C ends `good`, yet B and A end `unknown` | `__call__` returns the state, so a dependency counts as satisfied when it is `good` after executing, as the docstring of `check_dependencies` says | high (not executed) | Node.LiteralCallNeverSatisfies | Node.CheckDependencies |
| autodepgraph/graph_v2.py:34 | the state defaults from `attr.get('calibration_timeout', 'unknown')` | `add_node('A', calibration_timeout=10.0)` stores state 10.0; `add_node('A', state='good')` stores "unknown" | `attr.get('state', 'unknown')`, like the three defaults after it | high (not executed) | GraphV2.AddNodeAsWrittenMisplacesState | GraphV2.AddNode |
| autodepgraph/graph_v2.py:86 | `isinstance(funcStr, types.FunctionType)` but `types` is never imported | any argument, e.g. `_get_function('a.b')`, raises `NameError` | `import types` at the top of the module | high (not executed) | GraphV2.GetFunctionAsWritten | GraphV2.GetFunction |
| autodepgraph/visualization.py:36 | reads `n_snap['parameters']['parents']`, but nodes have a `dependencies` parameter and no `parents` | any non-empty snapshot, e.g. test_snapshot_to_nxGraph's, raises `KeyError` | read the `dependencies` parameter | high (not executed) | Visualization.SnapshotToDiGraphAsWritten | Visualization.SnapshotToDiGraphEdges |
| autodepgraph/tests/test_node.py:7-9 | one node is created in `setUpClass` and shared by all tests | the tests run in name order, so test_checking_node leaves the node in `needs calibration` and the `unknown` assertion of test_executing_node (line 15) fails | a fresh node per test (`setUp`) | medium (not executed) | Graph.SharedStubNode | Graph.StubNodeTest |
