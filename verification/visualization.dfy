/** The two snapshot readers of autodepgraph/visualization.py: the colour
    each node is drawn in, and the directed graph handed to the layout
    routines. Drawing itself is not modelled. A snapshot's `nodes` dict is
    taken as its items in iteration order. */
module Visualization {

  import opened Wrappers
  import opened States
  import opened Node
  import opened Graph

  /** `state_cmap`: the colour a node in each state is drawn in. */
  function Colour(s: State): string
  {
    match s
    case Unknown => "#7f7f7f"
    case Active => "#1f77b4"
    case Good => "#2ca02c"
    case NeedsCalibration => "#ff7f0e"
    case Bad => "#d62728"
  }

  /** No two states share a colour. */
  lemma ColoursDistinct(s: State, t: State)
    ensures Colour(s) == Colour(t) <==> s == t
  {
  }

  /** The `nodes` dict of a snapshot, as (key, node snapshot) items. */
  type Entries = seq<(string, NodeSnapshot)>

  /** `KeyError` on a dict lookup, and `TypeError` on iterating a `None`. */
  datatype VizError = MissingColour(node: string) | MissingParameter(parameter: string) | NotIterable(node: string)

  /** The names stored inside the node snapshots. */
  function InnerNames(entries: Entries): set<string>
  {
    set i | 0 <= i < |entries| :: entries[i].1.name
  }

  /** No item after position i carries the same inner name. */
  ghost predicate LastWithName(entries: Entries, i: int)
    requires 0 <= i < |entries|
  {
    forall j | i < j < |entries| :: entries[j].1.name != entries[i].1.name
  }

  /** `get_state_col_map`: maps each inner node name to the colour of its
      state; a later item with the same name overwrites an earlier one, and
      a missing state (`None` is not a key of `state_cmap`) raises at the
      first such item. */
  function StateColMap(entries: Entries): Result<map<string, string>, VizError>
    decreases |entries|
  {
    if entries == [] then Ok(map[])
    else
      var last := entries[|entries| - 1].1;
      match StateColMap(entries[..|entries| - 1])
      case Err(e) => Err(e)
      case Ok(m) =>
        if last.state.None? then Err(MissingColour(last.name))
        else Ok(m[last.name := Colour(last.state.value)])
  }

  /** The colour map fails exactly when some item has no state, and then
      names the first such item. */
  lemma {:induction false} StateColMapFails(entries: Entries)
    ensures StateColMap(entries).Ok? <==> AllStated(entries)
    ensures StateColMap(entries).Err? ==> exists i | 0 <= i < |entries| ::
      && entries[i].1.state.None?
      && StateColMap(entries).error == MissingColour(entries[i].1.name)
      && forall j | 0 <= j < i :: entries[j].1.state.Some?
    decreases |entries|
  {
    if entries != [] {
      var prefix := entries[..|entries| - 1];
      var k := |entries| - 1;
      assert forall i | 0 <= i < |prefix| :: prefix[i] == entries[i];
      AllStatedSnoc(entries);
      StateColMapFails(prefix);
      if StateColMap(prefix).Err? {
        var i :| 0 <= i < |prefix| && prefix[i].1.state.None?
          && StateColMap(prefix).error == MissingColour(prefix[i].1.name)
          && forall j | 0 <= j < i :: prefix[j].1.state.Some?;
        assert entries[i].1.state.None? && forall j | 0 <= j < i :: entries[j].1.state.Some?;
      } else if entries[k].1.state.None? {
        assert forall j | 0 <= j < k :: entries[j].1.state.Some?;
      }
    }
  }

  /** When the colour map succeeds its keys are the inner names, and each
      name has the colour of the last item carrying it. */
  lemma {:induction false} StateColMapColours(entries: Entries)
    requires AllStated(entries)
    ensures StateColMap(entries).Ok?
    ensures StateColMap(entries).value.Keys == InnerNames(entries)
    ensures ColoursOfLast(entries, StateColMap(entries).value)
    decreases |entries|
  {
    StateColMapFails(entries);
    if entries != [] {
      var prefix := entries[..|entries| - 1];
      AllStatedSnoc(entries);
      StateColMapColours(prefix);
      InnerNamesSnoc(entries);
      ColMapSnoc(entries, StateColMap(prefix).value);
    }
  }

  /** Every item has a state. */
  ghost predicate AllStated(entries: Entries)
  {
    forall i | 0 <= i < |entries| :: entries[i].1.state.Some?
  }

  lemma AllStatedSnoc(entries: Entries)
    requires entries != []
    ensures AllStated(entries) <==> AllStated(entries[..|entries| - 1]) && entries[|entries| - 1].1.state.Some?
  {
    var prefix := entries[..|entries| - 1];
    assert forall i | 0 <= i < |prefix| :: prefix[i] == entries[i];
  }

  lemma InnerNamesSnoc(entries: Entries)
    requires entries != []
    ensures InnerNames(entries) == InnerNames(entries[..|entries| - 1]) + {entries[|entries| - 1].1.name}
  {
    var prefix := entries[..|entries| - 1];
    assert forall i | 0 <= i < |prefix| :: prefix[i] == entries[i];
  }

  /** `m` gives the item at each position that no later item renames the
      colour of its state. */
  ghost predicate ColoursOfLast(entries: Entries, m: map<string, string>)
  {
    forall i | 0 <= i < |entries| && entries[i].1.state.Some? && LastWithName(entries, i) ::
      entries[i].1.name in m && m[entries[i].1.name] == Colour(entries[i].1.state.value)
  }

  /** The colour map of the items is that of all but the last, updated
      with the last. */
  lemma ColMapSnoc(entries: Entries, m: map<string, string>)
    requires entries != [] && entries[|entries| - 1].1.state.Some?
    requires ColoursOfLast(entries[..|entries| - 1], m)
    ensures var last := entries[|entries| - 1].1;
      ColoursOfLast(entries, m[last.name := Colour(last.state.value)])
  {
    var prefix := entries[..|entries| - 1];
    var last := entries[|entries| - 1].1;
    var r := m[last.name := Colour(last.state.value)];
    forall i | 0 <= i < |entries| && entries[i].1.state.Some? && LastWithName(entries, i)
      ensures entries[i].1.name in r && r[entries[i].1.name] == Colour(entries[i].1.state.value)
    {
      if i < |prefix| {
        assert prefix[i] == entries[i];
        assert LastWithName(prefix, i) by {
          forall j | i < j < |prefix| ensures prefix[j].1.name != prefix[i].1.name {
            assert prefix[j] == entries[j];
          }
        }
        assert entries[|entries| - 1].1.name != entries[i].1.name;
      }
    }
  }

  /** Items that list exactly the snapshot's nodes, each once. */
  ghost predicate Enumerates(entries: Entries, nodes: map<string, NodeSnapshot>)
  {
    && (forall i | 0 <= i < |entries| :: entries[i].0 in nodes && entries[i].1 == nodes[entries[i].0])
    && (forall k | k in nodes :: exists i | 0 <= i < |entries| :: entries[i].0 == k)
    && (forall i, j | 0 <= i < j < |entries| :: entries[i].0 != entries[j].0)
  }

  /** On the snapshot of a graph, in any iteration order, the colour map
      gives every node the colour of its state. */
  lemma SnapshotColours(g: Nodes, entries: Entries)
    requires WellKeyed(g)
    requires Enumerates(entries, Snapshot(g).nodes)
    ensures StateColMap(entries) == Ok(map k | k in g :: Colour(g[k].state))
  {
    SnapshotItems(g, entries);
    StateColMapColours(entries);
    var m := StateColMap(entries).value;
    SnapshotColourKeys(g, entries, m);
    SnapshotColourValues(g, entries, m);
  }

  /** Every item of a snapshot is keyed by its node's name and carries
      that node's state. */
  lemma SnapshotItems(g: Nodes, entries: Entries)
    requires WellKeyed(g)
    requires Enumerates(entries, Snapshot(g).nodes)
    ensures AllStated(entries)
    ensures forall i | 0 <= i < |entries| ::
      entries[i].0 in g && entries[i].1.name == entries[i].0 && entries[i].1.state == Some(g[entries[i].0].state)
    ensures forall k | k in g :: exists i | 0 <= i < |entries| :: entries[i].0 == k
    ensures forall i, j | 0 <= i < j < |entries| :: entries[i].0 != entries[j].0
  {
  }

  lemma SnapshotColourKeys(g: Nodes, entries: Entries, m: map<string, string>)
    requires forall i | 0 <= i < |entries| :: entries[i].0 in g && entries[i].1.name == entries[i].0
    requires forall k | k in g :: exists i | 0 <= i < |entries| :: entries[i].0 == k
    requires m.Keys == InnerNames(entries)
    ensures m.Keys == g.Keys
  {
    forall k | k in g ensures k in InnerNames(entries) {
      var i :| 0 <= i < |entries| && entries[i].0 == k;
      assert entries[i].1.name == k;
    }
  }

  lemma SnapshotColourValues(g: Nodes, entries: Entries, m: map<string, string>)
    requires forall i | 0 <= i < |entries| ::
      entries[i].0 in g && entries[i].1.name == entries[i].0 && entries[i].1.state == Some(g[entries[i].0].state)
    requires forall k | k in g :: exists i | 0 <= i < |entries| :: entries[i].0 == k
    requires forall i, j | 0 <= i < j < |entries| :: entries[i].0 != entries[j].0
    requires m.Keys == g.Keys && ColoursOfLast(entries, m)
    ensures m == map k | k in g :: Colour(g[k].state)
  {
    forall k | k in g ensures m[k] == Colour(g[k].state) {
      var i :| 0 <= i < |entries| && entries[i].0 == k;
      assert LastWithName(entries, i);
    }
  }

  /** A networkx `DiGraph`: its nodes and its edges. */
  datatype DiGraph = DiGraph(nodes: set<string>, edges: set<(string, string)>)

  /** `snapshot_to_nxGraph` as written: it reads each node's `parents`
      parameter, which a node snapshot does not have, so any snapshot with
      a node raises `KeyError`. */
  function SnapshotToDiGraphAsWritten(entries: Entries): (r: Result<DiGraph, VizError>)
    ensures r.Ok? <==> entries == []
    ensures r.Ok? ==> r.value == DiGraph({}, {})
    ensures r.Err? ==> r.error == MissingParameter("parents")
  {
    if entries == [] then Ok(DiGraph({}, {})) else Err(MissingParameter("parents"))
  }

  /** The keys of the items. */
  function Keys(entries: Entries): set<string>
  {
    set i | 0 <= i < |entries| :: entries[i].0
  }

  /** `snapshot_to_nxGraph` reading the `dependencies` parameter: every key
      is a node, and every dependency d of the node under key k gives the
      edge (k, d), adding d as a node if need be. The first node whose
      dependencies were never set (`None`) cannot be iterated. */
  function SnapshotToDiGraph(entries: Entries): Result<DiGraph, VizError>
    decreases |entries|
  {
    if entries == [] then Ok(DiGraph({}, {}))
    else
      var (key, node) := entries[0];
      if node.dependencies.None? then Err(NotIterable(key))
      else
        match SnapshotToDiGraph(entries[1..])
        case Err(e) => Err(e)
        case Ok(rest) =>
          var deps := node.dependencies.value;
          Ok(DiGraph(rest.nodes + {key} + (set d | d in deps), rest.edges + (set d | d in deps :: (key, d))))
  }

  /** Every item's dependencies are set. */
  ghost predicate AllIterable(entries: Entries)
  {
    forall i | 0 <= i < |entries| :: entries[i].1.dependencies.Some?
  }

  lemma AllIterableCons(entries: Entries)
    requires entries != []
    ensures AllIterable(entries) <==> entries[0].1.dependencies.Some? && AllIterable(entries[1..])
  {
    assert forall i | 1 <= i < |entries| :: entries[1..][i - 1] == entries[i];
  }

  /** The graph can be built exactly when every item's dependencies are
      set; otherwise the error names the first item whose are not. */
  lemma {:induction false} SnapshotToDiGraphFails(entries: Entries)
    ensures SnapshotToDiGraph(entries).Ok? <==> AllIterable(entries)
    ensures SnapshotToDiGraph(entries).Err? ==> exists i | 0 <= i < |entries| ::
      && entries[i].1.dependencies.None?
      && SnapshotToDiGraph(entries).error == NotIterable(entries[i].0)
      && forall j | 0 <= j < i :: entries[j].1.dependencies.Some?
    decreases |entries|
  {
    if entries != [] {
      AllIterableCons(entries);
      var tail := entries[1..];
      SnapshotToDiGraphFails(tail);
      if entries[0].1.dependencies.Some? && SnapshotToDiGraph(tail).Err? {
        var i :| 0 <= i < |tail| && tail[i].1.dependencies.None?
          && SnapshotToDiGraph(tail).error == NotIterable(tail[i].0)
          && forall j | 0 <= j < i :: tail[j].1.dependencies.Some?;
        assert entries[i + 1] == tail[i];
        assert forall j | 1 <= j < i + 1 :: entries[j] == tail[j - 1];
      }
    }
  }

  lemma KeysCons(entries: Entries)
    requires entries != []
    ensures Keys(entries) == {entries[0].0} + Keys(entries[1..])
  {
    assert forall i | 1 <= i < |entries| :: entries[1..][i - 1] == entries[i];
    forall x | x in Keys(entries) ensures x in {entries[0].0} + Keys(entries[1..]) {
      var i :| 0 <= i < |entries| && entries[i].0 == x;
      if i > 0 { assert entries[1..][i - 1].0 == x; }
    }
  }

  /** The edges are exactly the pairs (k, d) with d a dependency of the
      node under key k. */
  lemma {:induction false} SnapshotToDiGraphEdges(entries: Entries)
    requires AllIterable(entries)
    ensures SnapshotToDiGraph(entries).Ok?
    ensures forall e :: e in SnapshotToDiGraph(entries).value.edges <==>
      exists i | 0 <= i < |entries| :: e.0 == entries[i].0 && e.1 in entries[i].1.dependencies.value
    decreases |entries|
  {
    SnapshotToDiGraphFails(entries);
    if entries != [] {
      var tail := entries[1..];
      AllIterableCons(entries);
      SnapshotToDiGraphEdges(tail);
      assert forall i | 1 <= i < |entries| :: tail[i - 1] == entries[i];
      var g := SnapshotToDiGraph(entries).value;
      forall e ensures e in g.edges <==>
        exists i | 0 <= i < |entries| :: e.0 == entries[i].0 && e.1 in entries[i].1.dependencies.value
      {
        if e in g.edges && e !in SnapshotToDiGraph(tail).value.edges {
          assert e.0 == entries[0].0 && e.1 in entries[0].1.dependencies.value;
        }
        if exists i | 0 <= i < |entries| :: e.0 == entries[i].0 && e.1 in entries[i].1.dependencies.value {
          var i :| 0 <= i < |entries| && e.0 == entries[i].0 && e.1 in entries[i].1.dependencies.value;
          if i > 0 {
            assert e.0 == tail[i - 1].0 && e.1 in tail[i - 1].1.dependencies.value;
          }
        }
      }
    }
  }

  /** The nodes are exactly the keys and the dependencies. */
  lemma {:induction false} SnapshotToDiGraphNodes(entries: Entries)
    requires AllIterable(entries)
    ensures SnapshotToDiGraph(entries).Ok?
    ensures forall x :: x in SnapshotToDiGraph(entries).value.nodes <==>
      x in Keys(entries) || exists i | 0 <= i < |entries| :: x in entries[i].1.dependencies.value
    decreases |entries|
  {
    SnapshotToDiGraphFails(entries);
    if entries != [] {
      var tail := entries[1..];
      AllIterableCons(entries);
      SnapshotToDiGraphNodes(tail);
      KeysCons(entries);
      assert forall i | 1 <= i < |entries| :: tail[i - 1] == entries[i];
      var g := SnapshotToDiGraph(entries).value;
      forall x ensures x in g.nodes <==>
        x in Keys(entries) || exists i | 0 <= i < |entries| :: x in entries[i].1.dependencies.value
      {
        if x in entries[0].1.dependencies.value {
          assert exists i | 0 <= i < |entries| :: x in entries[i].1.dependencies.value by {
            assert x in entries[0].1.dependencies.value;
          }
        }
        if exists i | 0 <= i < |entries| :: x in entries[i].1.dependencies.value {
          var i :| 0 <= i < |entries| && x in entries[i].1.dependencies.value;
          if i > 0 {
            assert x in tail[i - 1].1.dependencies.value;
          }
        }
      }
    }
  }

  /** Each edge starts at a key and is listed among that node's
      dependencies, and both its ends are nodes of the graph. */
  lemma EdgesFollowDependencies(entries: Entries)
    requires SnapshotToDiGraph(entries).Ok?
    ensures var g := SnapshotToDiGraph(entries).value;
      && Keys(entries) <= g.nodes
      && forall e | e in g.edges :: e.0 in Keys(entries) && e.0 in g.nodes && e.1 in g.nodes
  {
    SnapshotToDiGraphFails(entries);
    SnapshotToDiGraphEdges(entries);
    SnapshotToDiGraphNodes(entries);
    var g := SnapshotToDiGraph(entries).value;
    forall e | e in g.edges ensures e.0 in Keys(entries) && e.1 in g.nodes {
      var i :| 0 <= i < |entries| && e.0 == entries[i].0 && e.1 in entries[i].1.dependencies.value;
    }
  }

  /** Nodes without dependencies give a graph without edges whose nodes
      are exactly the keys. */
  lemma NoDependenciesNoEdges(entries: Entries)
    requires forall i | 0 <= i < |entries| :: entries[i].1.dependencies == Some([])
    ensures SnapshotToDiGraph(entries) == Ok(DiGraph(Keys(entries), {}))
  {
    assert AllIterable(entries);
    SnapshotToDiGraphEdges(entries);
    SnapshotToDiGraphNodes(entries);
    var r := SnapshotToDiGraph(entries);
    assert forall i | 0 <= i < |entries| :: entries[i].1.dependencies.value == [];
    assert forall x :: x in r.value.nodes <==> x in Keys(entries);
    assert r.value.nodes == Keys(entries);
    assert forall e :: e !in r.value.edges;
    assert r.value.edges == {};
  }
}
