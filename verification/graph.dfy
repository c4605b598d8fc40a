/** The node container of autodepgraph/graph.py: a name-keyed map of nodes,
    its snapshot, the field-selection rule of `load_graph`, and the stub
    calibration node defined in the same file. Reading and writing the YAML
    file is not modelled; a snapshot is taken as already parsed. */
module Graph {

  import opened Wrappers
  import opened States
  import opened Node

  /** `Graph._nodes`: the nodes added to a graph, by name. */
  type Nodes = map<string, CalibrationNode>

  /** Every node is stored under its own name. */
  ghost predicate WellKeyed(g: map<string, CalibrationNode>)
  {
    forall k | k in g :: g[k].name == k
  }

  /** `add_node`: stores the node under its name, replacing (with a warning)
      any node already stored there. */
  function AddNode(g: Nodes, n: CalibrationNode): (r: Nodes)
    ensures r.Keys == g.Keys + {n.name}
    ensures r[n.name] == n
    ensures forall k | k in g && k != n.name :: r[k] == g[k]
    ensures WellKeyed(g) ==> WellKeyed(r)
  {
    g[n.name := n]
  }

  /** Adding the same node again changes nothing. */
  lemma AddNodeIdempotent(g: Nodes, n: CalibrationNode)
    ensures AddNode(AddNode(g, n), n) == AddNode(g, n)
    ensures |AddNode(g, n).Keys| == |g.Keys| + (if n.name in g then 0 else 1)
  {
  }

  /** test_adding_node: adding node A three times to an empty graph leaves
      exactly the one entry for A. */
  lemma AddingNodeTest(a: CalibrationNode)
    ensures AddNode(AddNode(AddNode(map[], a), a), a) == map[a.name := a]
  {
    AddNodeIdempotent(AddNode(map[], a), a);
  }

  // -------------------------------------------------------------- snapshot

  /** The parameter values of one node in a snapshot; `None` is a `null`. */
  datatype NodeSnapshot = NodeSnapshot(
    name: string,
    state: Option<State>,
    dependencies: Option<seq<string>>,
    checkFunctions: Option<seq<string>>,
    calibrateFunctions: Option<seq<string>>)

  /** A graph snapshot: the two top-level keys `nodes` and `meta`. */
  datatype GraphSnapshot = GraphSnapshot(nodes: map<string, NodeSnapshot>, meta: map<string, string>)

  function SnapshotOf(n: CalibrationNode): NodeSnapshot
  {
    NodeSnapshot(n.name, Some(n.state), n.dependencies, n.checkFunctions, n.calibrateFunctions)
  }

  /** `snapshot()`: one entry per node, keyed by node name, and empty
      metadata. */
  function Snapshot(g: Nodes): (s: GraphSnapshot)
    requires WellKeyed(g)
    ensures s.nodes.Keys == g.Keys && s.meta == map[]
    ensures forall k | k in g :: s.nodes[k].name == k && s.nodes[k].state == Some(g[k].state)
  {
    GraphSnapshot(map k | k in g :: SnapshotOf(g[k]), map[])
  }

  /** test_save_graph: after adding A, B and C the snapshot's nodes are
      exactly A, B and C. */
  lemma SaveGraphTest(a: CalibrationNode, b: CalibrationNode, c: CalibrationNode)
    requires a.name == "A" && b.name == "B" && c.name == "C"
    ensures Snapshot(AddNode(AddNode(AddNode(map[], a), b), c)).nodes.Keys == {"A", "B", "C"}
  {
  }

  // ------------------------------------------------------------ load_graph

  /** The update `load_graph` applies to one node: the three list parameters,
      and the state only when `loadState` is set; a `null` in the snapshot
      leaves the parameter as it was. */
  function Merge(n: CalibrationNode, s: NodeSnapshot, loadState: bool): (m: CalibrationNode)
    ensures m.name == n.name
    ensures m.state == (if loadState && s.state.Some? then s.state.value else n.state)
    ensures m.dependencies == (if s.dependencies.Some? then s.dependencies else n.dependencies)
    ensures m.checkFunctions == (if s.checkFunctions.Some? then s.checkFunctions else n.checkFunctions)
    ensures m.calibrateFunctions == (if s.calibrateFunctions.Some? then s.calibrateFunctions else n.calibrateFunctions)
  {
    var withLists := n.(
      dependencies := if s.dependencies.Some? then s.dependencies else n.dependencies,
      checkFunctions := if s.checkFunctions.Some? then s.checkFunctions else n.checkFunctions,
      calibrateFunctions := if s.calibrateFunctions.Some? then s.calibrateFunctions else n.calibrateFunctions);
    if loadState && s.state.Some? then withLists.(state := s.state.value) else withLists
  }

  /** Merging a node's own snapshot gives the node back, and merging the same
      snapshot twice is merging it once. */
  lemma MergeOwnSnapshot(n: CalibrationNode, loadState: bool)
    ensures Merge(n, SnapshotOf(n), loadState) == n
  {
  }

  lemma MergeIdempotent(n: CalibrationNode, s: NodeSnapshot, loadState: bool)
    ensures Merge(Merge(n, s, loadState), s, loadState) == Merge(n, s, loadState)
  {
  }

  /** A graph being loaded, together with the registry of open nodes that
      `find_instrument` consults (and that creating a node adds to). */
  datatype Loaded = Loaded(graph: Nodes, registry: World)

  function Names(entries: seq<NodeSnapshot>): set<string>
  {
    set i | 0 <= i < |entries| :: entries[i].name
  }

  lemma NamesCons(entries: seq<NodeSnapshot>)
    requires entries != []
    ensures Names(entries) == {entries[0].name} + Names(entries[1..])
  {
    forall x | x in Names(entries) ensures x in {entries[0].name} + Names(entries[1..]) {
      var i :| 0 <= i < |entries| && entries[i].name == x;
      if i > 0 {
        assert entries[1..][i - 1].name == x;
      }
    }
    forall x | x in Names(entries[1..]) ensures x in Names(entries) {
      var i :| 0 <= i < |entries[1..]| && entries[1..][i].name == x;
      assert entries[i + 1].name == x;
    }
  }

  /** One snapshot entry: reuse the open node of that name or create a new
      one, merge the entry into it, and add it to the graph. */
  function LoadEntry(st: Loaded, s: NodeSnapshot, loadState: bool): (r: Loaded)
    requires WellKeyed(st.registry)
    ensures WellKeyed(r.registry)
    ensures WellKeyed(st.graph) ==> WellKeyed(r.graph)
    ensures r.graph.Keys == st.graph.Keys + {s.name}
    ensures r.registry.Keys == st.registry.Keys + {s.name}
    ensures r.graph[s.name] == r.registry[s.name]
    ensures forall k | k in st.registry && k != s.name :: r.registry[k] == st.registry[k]
    ensures forall k | k in st.graph && k != s.name :: r.graph[k] == st.graph[k]
  {
    var base := if s.name in st.registry then st.registry[s.name] else NewNode(s.name);
    var node := Merge(base, s, loadState);
    Loaded(AddNode(st.graph, node), st.registry[s.name := node])
  }

  lemma LoadEntryNode(st: Loaded, s: NodeSnapshot, loadState: bool)
    requires WellKeyed(st.registry)
    ensures LoadEntry(st, s, loadState).registry[s.name]
      == Merge(if s.name in st.registry then st.registry[s.name] else NewNode(s.name), s, loadState)
  {
  }

  /** `load_graph` over the snapshot's node entries, in file order. */
  function LoadGraph(st: Loaded, entries: seq<NodeSnapshot>, loadState: bool): (r: Loaded)
    requires WellKeyed(st.registry)
    ensures WellKeyed(r.registry)
    decreases |entries|
  {
    if entries == [] then st
    else LoadGraph(LoadEntry(st, entries[0], loadState), entries[1..], loadState)
  }

  lemma SetUnionAssoc<T>(a: set<T>, b: set<T>, c: set<T>)
    ensures (a + b) + c == a + (b + c)
  {
  }

  /** Loading adds exactly the entries' names to the graph and to the open
      nodes, and keeps every node stored under its own name. */
  lemma {:induction false} LoadGraphKeys(st: Loaded, entries: seq<NodeSnapshot>, loadState: bool)
    requires WellKeyed(st.registry)
    ensures WellKeyed(st.graph) ==> WellKeyed(LoadGraph(st, entries, loadState).graph)
    ensures LoadGraph(st, entries, loadState).graph.Keys == st.graph.Keys + Names(entries)
    ensures LoadGraph(st, entries, loadState).registry.Keys == st.registry.Keys + Names(entries)
    decreases |entries|
  {
    if entries != [] {
      var first := LoadEntry(st, entries[0], loadState);
      var r := LoadGraph(first, entries[1..], loadState);
      assert LoadGraph(st, entries, loadState) == r;
      LoadGraphKeys(first, entries[1..], loadState);
      NamesCons(entries);
      SetUnionAssoc(st.graph.Keys, {entries[0].name}, Names(entries[1..]));
      SetUnionAssoc(st.registry.Keys, {entries[0].name}, Names(entries[1..]));
    }
  }

  /** Each loaded node is the open node of its name, and graph nodes and
      open nodes no entry names are untouched. */
  lemma {:induction false} LoadGraphFrame(st: Loaded, entries: seq<NodeSnapshot>, loadState: bool)
    requires WellKeyed(st.registry)
    ensures var r := LoadGraph(st, entries, loadState);
      && (forall k | k in Names(entries) :: k in r.graph && k in r.registry && r.graph[k] == r.registry[k])
      && (forall k | k in st.registry && k !in Names(entries) :: k in r.registry && r.registry[k] == st.registry[k])
      && (forall k | k in st.graph && k !in Names(entries) :: k in r.graph && r.graph[k] == st.graph[k])
    decreases |entries|
  {
    if entries != [] {
      NamesCons(entries);
      var first := LoadEntry(st, entries[0], loadState);
      LoadGraphKeys(first, entries[1..], loadState);
      LoadGraphFrame(first, entries[1..], loadState);
    }
  }

  /** Loading entries that are snapshots of the open nodes themselves
      changes no node, and puts exactly those nodes into the graph. */
  lemma {:induction false} LoadOwnSnapshots(st: Loaded, entries: seq<NodeSnapshot>, loadState: bool)
    requires WellKeyed(st.registry)
    requires forall i | 0 <= i < |entries| ::
      entries[i].name in st.registry && entries[i] == SnapshotOf(st.registry[entries[i].name])
    ensures LoadGraph(st, entries, loadState).registry == st.registry
    ensures forall k | k in Names(entries) ::
      k in LoadGraph(st, entries, loadState).graph && LoadGraph(st, entries, loadState).graph[k] == st.registry[k]
    decreases |entries|
  {
    if entries != [] {
      var e := entries[0];
      MergeOwnSnapshot(st.registry[e.name], loadState);
      var first := LoadEntry(st, e, loadState);
      assert first.registry == st.registry;
      forall i | 0 <= i < |entries[1..]|
        ensures entries[1..][i].name in first.registry
        ensures entries[1..][i] == SnapshotOf(first.registry[entries[1..][i].name])
      {
        assert entries[1..][i] == entries[i + 1];
      }
      LoadOwnSnapshots(first, entries[1..], loadState);
      LoadGraphFrame(first, entries[1..], loadState);
      NamesCons(entries);
    }
  }

  /** Saving a graph and loading it back into an empty graph, with or
      without states, yields the same graph over the same open nodes. */
  lemma SnapshotRoundTrip(g: Nodes, entries: seq<NodeSnapshot>, loadState: bool)
    requires WellKeyed(g)
    requires Names(entries) == g.Keys
    requires forall i | 0 <= i < |entries| ::
      entries[i].name in g && entries[i] == Snapshot(g).nodes[entries[i].name]
    ensures LoadGraph(Loaded(map[], g), entries, loadState) == Loaded(g, g)
  {
    LoadOwnSnapshots(Loaded(map[], g), entries, loadState);
    LoadGraphKeys(Loaded(map[], g), entries, loadState);
  }

  /** The node a load into an empty registry makes of `n`'s snapshot: `n`
      itself when states are loaded, else `n` in state `unknown`. */
  function Reloaded(n: CalibrationNode, loadState: bool): CalibrationNode
  {
    if loadState then n else n.(state := Unknown)
  }

  /** Merging a node's snapshot into a new node of that name, or into what
      an earlier merge of the same snapshot left, gives the reloaded node. */
  lemma MergeIntoFresh(n: CalibrationNode, base: CalibrationNode, loadState: bool)
    requires base == NewNode(n.name) || base == Reloaded(n, loadState)
    ensures Merge(base, SnapshotOf(n), loadState) == Reloaded(n, loadState)
  {
  }

  /** Loading snapshots of the nodes of `g` into open nodes that are
      already reloaded nodes of `g` leaves only reloaded nodes of `g`. */
  lemma {:induction false} LoadFresh(st: Loaded, entries: seq<NodeSnapshot>, loadState: bool, g: Nodes)
    requires WellKeyed(st.registry)
    requires forall k | k in st.registry :: k in g && st.registry[k] == Reloaded(g[k], loadState)
    requires forall i | 0 <= i < |entries| :: entries[i].name in g && entries[i] == SnapshotOf(g[entries[i].name])
    ensures forall k | k in LoadGraph(st, entries, loadState).registry ::
      k in g && LoadGraph(st, entries, loadState).registry[k] == Reloaded(g[k], loadState)
    decreases |entries|
  {
    if entries != [] {
      var e := entries[0];
      var first := LoadEntry(st, e, loadState);
      var base := if e.name in st.registry then st.registry[e.name] else NewNode(e.name);
      LoadEntryNode(st, e, loadState);
      MergeIntoFresh(g[e.name], base, loadState);
      assert forall i | 0 <= i < |entries[1..]| :: entries[1..][i] == entries[i + 1];
      LoadFresh(first, entries[1..], loadState, g);
    }
  }

  /** Loading the snapshots of all nodes of `g` into a session with no open
      nodes opens exactly the reloaded nodes of `g`, and the graph holds
      them too. */
  lemma FreshLoad(g: Nodes, entries: seq<NodeSnapshot>, loadState: bool)
    requires WellKeyed(g)
    requires Names(entries) == g.Keys
    requires forall i | 0 <= i < |entries| :: entries[i].name in g && entries[i] == SnapshotOf(g[entries[i].name])
    ensures var r := LoadGraph(Loaded(map[], map[]), entries, loadState);
      && r.graph == r.registry
      && r.registry == map k | k in g :: Reloaded(g[k], loadState)
  {
    FreshRegistry(Loaded(map[], map[]), g, entries, loadState);
    FreshGraph(Loaded(map[], map[]), entries, loadState);
  }

  /** The open nodes after loading every node of `g` into an empty registry
      are exactly the reloaded nodes of `g`. */
  lemma FreshRegistry(st: Loaded, g: Nodes, entries: seq<NodeSnapshot>, loadState: bool)
    requires st.registry == map[] && WellKeyed(g)
    requires Names(entries) == g.Keys
    requires forall i | 0 <= i < |entries| :: entries[i].name in g && entries[i] == SnapshotOf(g[entries[i].name])
    ensures LoadGraph(st, entries, loadState).registry == map k | k in g :: Reloaded(g[k], loadState)
  {
    LoadFresh(st, entries, loadState, g);
    LoadGraphKeys(st, entries, loadState);
  }

  /** A load into an empty session adds to the graph every node it opens. */
  lemma FreshGraph(st: Loaded, entries: seq<NodeSnapshot>, loadState: bool)
    requires st.registry == map[] && st.graph == map[]
    ensures LoadGraph(st, entries, loadState).graph == LoadGraph(st, entries, loadState).registry
  {
    var r := LoadGraph(st, entries, loadState);
    LoadGraphKeys(st, entries, loadState);
    LoadGraphFrame(st, entries, loadState);
    assert r.graph.Keys == r.registry.Keys;
  }

  /** The items of a graph's snapshot are the snapshots of its nodes. */
  lemma SnapshotItemsOf(g: Nodes, entries: seq<NodeSnapshot>)
    requires WellKeyed(g)
    requires forall i | 0 <= i < |entries| ::
      entries[i].name in g && entries[i] == Snapshot(g).nodes[entries[i].name]
    ensures forall i | 0 <= i < |entries| :: entries[i] == SnapshotOf(g[entries[i].name])
  {
  }

  /** Saving a graph and loading the file into a session with no open nodes
      restores every node, states included. */
  lemma FreshRoundTrip(g: Nodes, entries: seq<NodeSnapshot>)
    requires WellKeyed(g)
    requires Names(entries) == g.Keys
    requires forall i | 0 <= i < |entries| ::
      entries[i].name in g && entries[i] == Snapshot(g).nodes[entries[i].name]
    ensures LoadGraph(Loaded(map[], map[]), entries, true) == Loaded(g, g)
  {
    SnapshotItemsOf(g, entries);
    FreshLoad(g, entries, true);
    assert (map k | k in g :: Reloaded(g[k], true)) == g;
  }

  /** Without `loadState` the same load restores every node but in state
      `unknown`. */
  lemma FreshLoadWithoutState(g: Nodes, entries: seq<NodeSnapshot>)
    requires WellKeyed(g)
    requires Names(entries) == g.Keys
    requires forall i | 0 <= i < |entries| ::
      entries[i].name in g && entries[i] == Snapshot(g).nodes[entries[i].name]
    ensures var r := LoadGraph(Loaded(map[], map[]), entries, false);
      && r.graph == r.registry && r.graph.Keys == g.Keys
      && forall k | k in g :: r.graph[k] == g[k].(state := Unknown)
  {
    SnapshotItemsOf(g, entries);
    FreshLoad(g, entries, false);
  }

  /** Without `loadState` no loaded node's state comes from the snapshot: a
      node already open keeps its state and a new one starts `unknown`. */
  lemma {:induction false} LoadWithoutState(st: Loaded, entries: seq<NodeSnapshot>)
    requires WellKeyed(st.registry)
    ensures forall k | k in Names(entries) ::
      && k in LoadGraph(st, entries, false).graph
      && LoadGraph(st, entries, false).graph[k].state == (if k in st.registry then st.registry[k].state else Unknown)
    decreases |entries|
  {
    if entries != [] {
      var e := entries[0];
      var tail := entries[1..];
      var first := LoadEntry(st, e, false);
      var r := LoadGraph(first, tail, false);
      assert LoadGraph(st, entries, false) == r;
      LoadWithoutState(first, tail);
      LoadGraphFrame(first, tail, false);
      NamesCons(entries);
      forall k | k in Names(entries)
        ensures k in r.graph && r.graph[k].state == (if k in st.registry then st.registry[k].state else Unknown)
      {
        if k == e.name {
          LoadEntryNode(st, e, false);
        }
      }
    }
  }

  /** No entry after position i names the same node. */
  ghost predicate LastNaming(entries: seq<NodeSnapshot>, i: int)
    requires 0 <= i < |entries|
  {
    forall j | i < j < |entries| :: entries[j].name != entries[i].name
  }

  /** Each node named last by an entry with a state has that state in `g`. */
  ghost predicate StatesLoaded(entries: seq<NodeSnapshot>, g: Nodes)
  {
    forall i | 0 <= i < |entries| && entries[i].state.Some? && LastNaming(entries, i) ::
      entries[i].name in g && g[entries[i].name].state == entries[i].state.value
  }

  /** With `loadState`, a node takes the state of the last entry naming it,
      when that entry has one. */
  lemma {:induction false} LoadWithState(st: Loaded, entries: seq<NodeSnapshot>)
    requires WellKeyed(st.registry)
    ensures StatesLoaded(entries, LoadGraph(st, entries, true).graph)
    decreases |entries|
  {
    if entries != [] {
      var tail := entries[1..];
      var first := LoadEntry(st, entries[0], true);
      LoadWithState(first, tail);
      var r := LoadGraph(st, entries, true);
      assert r == LoadGraph(first, tail, true);
      forall i | 0 <= i < |entries| && entries[i].state.Some? && LastNaming(entries, i)
        ensures entries[i].name in r.graph && r.graph[entries[i].name].state == entries[i].state.value
      {
        if i == 0 {
          LoadWithStateHead(st, entries);
        } else {
          LastNamingTail(entries, i);
        }
      }
    }
  }

  /** The first entry, when no later one names its node, sets its state. */
  lemma LoadWithStateHead(st: Loaded, entries: seq<NodeSnapshot>)
    requires WellKeyed(st.registry)
    requires entries != [] && entries[0].state.Some? && LastNaming(entries, 0)
    ensures var r := LoadGraph(st, entries, true);
      entries[0].name in r.graph && r.graph[entries[0].name].state == entries[0].state.value
  {
    var e := entries[0];
    var tail := entries[1..];
    var first := LoadEntry(st, e, true);
    assert LoadGraph(st, entries, true) == LoadGraph(first, tail, true);
    LoadEntryNode(st, e, true);
    assert e.name !in Names(tail) by {
      forall j | 0 <= j < |tail| ensures tail[j].name != e.name {
        assert tail[j] == entries[j + 1];
      }
    }
    LoadGraphFrame(first, tail, true);
  }

  lemma LastNamingTail(entries: seq<NodeSnapshot>, i: int)
    requires 0 < i < |entries| && LastNaming(entries, i)
    ensures entries[1..][i - 1] == entries[i] && LastNaming(entries[1..], i - 1)
  {
    var tail := entries[1..];
    forall j | i - 1 < j < |tail| ensures tail[j].name != tail[i - 1].name {
      assert tail[j] == entries[j + 1];
    }
  }

  // ----------------------------------------------------------- stub node

  /** What the stub `execute_node` returns: `True` for a node that was
      already good, else the state it ended in. */
  datatype StubReturn = ReturnedTrue | ReturnedState(state: State)

  /** The stub `check_dependencies`: always satisfied, no effect. */
  function StubCheckDependencies(n: CalibrationNode): bool
  {
    true
  }

  /** The stub `calibrate`: always succeeds and makes the node good. */
  function StubCalibrate(n: CalibrationNode): (r: (CalibrationNode, bool))
    ensures r.0 == n.(state := Good) && r.1
  {
    (n.(state := Good), true)
  }

  /** The stub `check`: always finds that the node needs calibration. */
  function StubCheck(n: CalibrationNode): (r: (CalibrationNode, State))
    ensures r.0 == n.(state := NeedsCalibration) && r.1 == r.0.state
  {
    (n.(state := NeedsCalibration), NeedsCalibration)
  }

  /** The stub `execute_node`. Its test `self.state == 'bad'` compares the
      `state` parameter object itself, not its value, with a string, is
      therefore never true, and the call to `check_dependencies` behind it
      never happens (nor would it matter, as the stub has no effect); the
      node is then calibrated. */
  function StubExecute(n: CalibrationNode): (r: (CalibrationNode, StubReturn))
    ensures r.0 == n.(state := Good)
    ensures r.1 == ReturnedTrue <==> n.state == Good
    ensures r.1.ReturnedState? ==> r.1.state == Good
  {
    if n.state == Good then (n, ReturnedTrue)
    else
      var (calibrated, _) := StubCalibrate(n);
      (calibrated, ReturnedState(calibrated.state))
  }

  /** test_node: a fresh stub node executes to `good`, and checking a fresh
      node stores and returns `needs calibration`. */
  lemma StubNodeTest()
    ensures StubExecute(NewNode("test_node")).0.state == Good
    ensures StubCheck(NewNode("test_node")).1 == NeedsCalibration
    ensures StubCheck(NewNode("test_node")).0.state == NeedsCalibration
  {
  }

  /** test_node shares one node between its test methods, which run in
      name order: test_checking_node leaves the node in `needs calibration`,
      so the state that test_executing_node then expects to be `unknown` is
      not; executing the node still ends `good`. */
  lemma SharedStubNode()
    ensures StubCheck(NewNode("test_node")).0.state != Unknown
    ensures StubExecute(StubCheck(NewNode("test_node")).0).0.state == Good
  {
  }
}
