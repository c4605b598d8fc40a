/** The calibration DAG of autodepgraph/graph_v2.py: a directed graph whose
    nodes carry attribute dictionaries, the defaults `add_node` installs, the
    edge rule of `add_edge`, `set_all_node_states`, and the classification
    of routine identifiers by `_get_function`. Drawing, and the `pass` stubs
    `execute_node` and `check_node`, are not modelled. */
module GraphV2 {

  import opened Wrappers
  import opened States
  import opened PyStrings

  /** An attribute value: a string, a finite number, or `numpy.inf`. */
  datatype Value = Text(text: string) | Number(x: real) | Infinite

  type Attrs = map<string, Value>

  /** The directed graph: named nodes with attributes, and the edge set;
      an edge `(u, v)` means that u depends on v. */
  datatype Dag = Dag(name: string, nodes: map<string, Attrs>, edges: set<(string, string)>)

  const StateKey := "state"
  const TimeoutKey := "calibration_timeout"
  const CalibrateKey := "calibrate_function"
  const CheckKey := "check_function"

  /** The routine a node without a calibration is wired to: it raises. */
  const NotImplementedCalibrationPath := "autodepgraph.node_functions.calibration_functions.NotImplementedCalibration"

  /** The check a node without one is wired to. */
  const AlwaysNeedsCalibrationPath := "autodepgraph.node_functions.check_functions.always_needs_calibration"

  /** `attrs.get(key, default)`. */
  function Get(attrs: Attrs, key: string, default: Value): Value
  {
    if key in attrs then attrs[key] else default
  }

  /** Every edge joins two nodes of the graph. */
  ghost predicate EdgesBetweenNodes(dag: Dag)
  {
    forall e | e in dag.edges :: e.0 in dag.nodes && e.1 in dag.nodes
  }

  /** The networkx `add_node`: a new node gets `attrs`, an existing one has
      its attribute dictionary updated with them. */
  function InsertNode(dag: Dag, node: string, attrs: Attrs): (r: Dag)
    ensures r.name == dag.name && r.edges == dag.edges
    ensures r.nodes.Keys == dag.nodes.Keys + {node}
    ensures forall k | k in dag.nodes && k != node :: r.nodes[k] == dag.nodes[k]
    ensures forall a | a in attrs :: a in r.nodes[node] && r.nodes[node][a] == attrs[a]
    ensures node in dag.nodes ==>
      forall a | a in dag.nodes[node] && a !in attrs :: a in r.nodes[node] && r.nodes[node][a] == dag.nodes[node][a]
    ensures r.nodes[node].Keys == attrs.Keys + (if node in dag.nodes then dag.nodes[node].Keys else {})
    ensures EdgesBetweenNodes(dag) ==> EdgesBetweenNodes(r)
  {
    var before := if node in dag.nodes then dag.nodes[node] else map[];
    dag.(nodes := dag.nodes[node := before + attrs])
  }

  /** The attributes `add_node` passes on, as written: the state is taken
      from the `calibration_timeout` attribute, so a supplied state is
      dropped and a supplied timeout becomes the state. */
  function DefaultsAsWritten(attrs: Attrs): Attrs
  {
    attrs[StateKey := Get(attrs, TimeoutKey, Text(Name(Unknown)))]
         [TimeoutKey := Get(attrs, TimeoutKey, Infinite)]
         [CalibrateKey := Get(attrs, CalibrateKey, Text(NotImplementedCalibrationPath))]
         [CheckKey := Get(attrs, CheckKey, Text(AlwaysNeedsCalibrationPath))]
  }

  /** The attributes `add_node` passes on, with the state read from the
      `state` attribute as the surrounding lines evidently intend. */
  function Defaults(attrs: Attrs): Attrs
  {
    attrs[StateKey := Get(attrs, StateKey, Text(Name(Unknown)))]
         [TimeoutKey := Get(attrs, TimeoutKey, Infinite)]
         [CalibrateKey := Get(attrs, CalibrateKey, Text(NotImplementedCalibrationPath))]
         [CheckKey := Get(attrs, CheckKey, Text(AlwaysNeedsCalibrationPath))]
  }

  /** `add_node` as written: like the corrected `add_node` called with the
      state replaced by the timeout (or "unknown"), so the other three
      defaults, the supplied attributes other than the state and every other
      node come out as intended. */
  function AddNodeAsWritten(dag: Dag, node: string, attrs: Attrs): (r: Dag)
    ensures r.name == dag.name && r.edges == dag.edges
    ensures r.nodes.Keys == dag.nodes.Keys + {node}
    ensures forall k | k in dag.nodes && k != node :: r.nodes[k] == dag.nodes[k]
    ensures forall a | a in attrs && a != StateKey :: a in r.nodes[node] && r.nodes[node][a] == attrs[a]
    ensures StateKey in r.nodes[node] && TimeoutKey in r.nodes[node]
    ensures CalibrateKey in r.nodes[node] && CheckKey in r.nodes[node]
    ensures r.nodes[node][StateKey] == (if TimeoutKey in attrs then attrs[TimeoutKey] else Text("unknown"))
    ensures TimeoutKey !in attrs ==> r.nodes[node][TimeoutKey] == Infinite
    ensures CalibrateKey !in attrs ==> r.nodes[node][CalibrateKey] == Text(NotImplementedCalibrationPath)
    ensures CheckKey !in attrs ==> r.nodes[node][CheckKey] == Text(AlwaysNeedsCalibrationPath)
  {
    AsWrittenIsMisplacedState(attrs);
    DefaultsFacts(attrs[StateKey := Get(attrs, TimeoutKey, Text(Name(Unknown)))]);
    InsertNode(dag, node, DefaultsAsWritten(attrs))
  }

  /** The attributes as written are the intended ones for a call whose state
      is the supplied timeout, or "unknown" without one. */
  lemma AsWrittenIsMisplacedState(attrs: Attrs)
    ensures DefaultsAsWritten(attrs) == Defaults(attrs[StateKey := Get(attrs, TimeoutKey, Text(Name(Unknown)))])
  {
  }

  /** Hence `add_node` as written is the corrected `add_node` applied to the
      attributes with the state replaced. */
  lemma AddNodeAsWrittenIsAddNode(dag: Dag, node: string, attrs: Attrs)
    ensures AddNodeAsWritten(dag, node, attrs) == AddNode(dag, node, attrs[StateKey := Get(attrs, TimeoutKey, Text(Name(Unknown)))])
  {
    AsWrittenIsMisplacedState(attrs);
  }

  /** A node added with only a timeout gets that timeout as its state, and
      a node added with a state loses it. */
  lemma AddNodeAsWrittenMisplacesState(dag: Dag)
    ensures AddNodeAsWritten(dag, "A", map[TimeoutKey := Number(10.0)]).nodes["A"][StateKey] == Number(10.0)
    ensures AddNodeAsWritten(dag, "A", map[StateKey := Text("good")]).nodes["A"][StateKey] == Text("unknown")
  {
  }

  /** `add_node`: the node exists afterwards with every supplied attribute,
      a state (`unknown` unless supplied), an infinite calibration timeout,
      the not-implemented calibration and the always-needs-calibration check
      unless supplied; other nodes, the edges and attributes of the node that
      were not mentioned are untouched. */
  function AddNode(dag: Dag, node: string, attrs: Attrs): (r: Dag)
    ensures r.name == dag.name && r.edges == dag.edges
    ensures r.nodes.Keys == dag.nodes.Keys + {node}
    ensures forall k | k in dag.nodes && k != node :: r.nodes[k] == dag.nodes[k]
    ensures forall a | a in attrs :: a in r.nodes[node] && r.nodes[node][a] == attrs[a]
    ensures StateKey in r.nodes[node] && TimeoutKey in r.nodes[node]
    ensures CalibrateKey in r.nodes[node] && CheckKey in r.nodes[node]
    ensures StateKey !in attrs ==> r.nodes[node][StateKey] == Text("unknown")
    ensures TimeoutKey !in attrs ==> r.nodes[node][TimeoutKey] == Infinite
    ensures CalibrateKey !in attrs ==> r.nodes[node][CalibrateKey] == Text(NotImplementedCalibrationPath)
    ensures CheckKey !in attrs ==> r.nodes[node][CheckKey] == Text(AlwaysNeedsCalibrationPath)
    ensures node in dag.nodes ==>
      forall a | a in dag.nodes[node] && a !in attrs && a !in {StateKey, TimeoutKey, CalibrateKey, CheckKey} ::
        a in r.nodes[node] && r.nodes[node][a] == dag.nodes[node][a]
    ensures EdgesBetweenNodes(dag) ==> EdgesBetweenNodes(r)
  {
    DefaultsFacts(attrs);
    InsertNode(dag, node, Defaults(attrs))
  }

  /** The defaults keep every supplied attribute and add the four keys. */
  lemma DefaultsFacts(attrs: Attrs)
    ensures Defaults(attrs).Keys == attrs.Keys + {StateKey, TimeoutKey, CalibrateKey, CheckKey}
    ensures forall a | a in attrs :: Defaults(attrs)[a] == attrs[a]
    ensures Defaults(attrs)[StateKey] == Get(attrs, StateKey, Text(Name(Unknown)))
    ensures Defaults(attrs)[TimeoutKey] == Get(attrs, TimeoutKey, Infinite)
    ensures Defaults(attrs)[CalibrateKey] == Get(attrs, CalibrateKey, Text(NotImplementedCalibrationPath))
    ensures Defaults(attrs)[CheckKey] == Get(attrs, CheckKey, Text(AlwaysNeedsCalibrationPath))
  {
    assert StateKey != TimeoutKey && StateKey != CalibrateKey && StateKey != CheckKey;
    assert TimeoutKey != CalibrateKey && TimeoutKey != CheckKey && CalibrateKey != CheckKey;
  }

  /** The errors the DAG operations raise. */
  datatype DagError = EndpointMissing(node: string)

  /** `add_edge(u, v)`: records that u depends on v, provided both are
      already nodes; otherwise the assertion fails and nothing is added.
      Acyclicity is not checked. */
  function AddEdge(dag: Dag, u: string, v: string): (r: Result<Dag, DagError>)
    ensures r.Ok? <==> u in dag.nodes && v in dag.nodes
    ensures r.Err? && u !in dag.nodes ==> r.error == EndpointMissing(u)
    ensures r.Err? && u in dag.nodes ==> r.error == EndpointMissing(v)
    ensures r.Ok? ==> r.value.nodes == dag.nodes && r.value.name == dag.name
    ensures r.Ok? ==> r.value.edges == dag.edges + {(u, v)}
    ensures r.Ok? && EdgesBetweenNodes(dag) ==> EdgesBetweenNodes(r.value)
  {
    if u !in dag.nodes then Err(EndpointMissing(u))
    else if v !in dag.nodes then Err(EndpointMissing(v))
    else Ok(dag.(edges := dag.edges + {(u, v)}))
  }

  /** Nothing stops `add_edge` from closing a cycle. */
  lemma AddEdgeAllowsCycle()
    ensures
      var dag := Dag("g", map["A" := map[], "B" := map[]], {("A", "B")});
      AddEdge(dag, "B", "A") == Ok(dag.(edges := {("A", "B"), ("B", "A")}))
  {
    var dag := Dag("g", map["A" := map[], "B" := map[]], {("A", "B")});
    assert "A" in dag.nodes && "B" in dag.nodes;
    assert {("A", "B")} + {("B", "A")} == {("A", "B"), ("B", "A")};
  }

  /** `set_all_node_states(s)`: every node's state becomes `s`; no other
      attribute, node or edge changes. */
  function SetAllNodeStates(dag: Dag, s: Value): (r: Dag)
    ensures r.name == dag.name && r.edges == dag.edges
    ensures r.nodes.Keys == dag.nodes.Keys
    ensures forall k | k in r.nodes :: StateKey in r.nodes[k] && r.nodes[k][StateKey] == s
    ensures forall k | k in r.nodes :: r.nodes[k].Keys == dag.nodes[k].Keys + {StateKey}
    ensures forall k, a | k in r.nodes && a in dag.nodes[k] && a != StateKey :: r.nodes[k][a] == dag.nodes[k][a]
    ensures EdgesBetweenNodes(dag) ==> EdgesBetweenNodes(r)
  {
    dag.(nodes := WithState(dag.nodes, s))
  }

  /** Each node's attributes with the state set to `s`. */
  function WithState(nodes: map<string, Attrs>, s: Value): map<string, Attrs>
  {
    map k | k in nodes :: nodes[k][StateKey := s]
  }

  /** Setting all states twice is setting them to the second value. */
  lemma SetAllNodeStatesLastWins(dag: Dag, s: Value, t: Value)
    ensures SetAllNodeStates(SetAllNodeStates(dag, s), t) == SetAllNodeStates(dag, t)
  {
    LastStateWins(dag.nodes, s, t);
  }

  /** Per node: the second state overwrites the first. */
  lemma LastStateWins(nodes: map<string, Attrs>, s: Value, t: Value)
    ensures WithState(WithState(nodes, s), t) == WithState(nodes, t)
  {
    var once := WithState(nodes, s);
    var twice := WithState(once, t);
    var direct := WithState(nodes, t);
    assert twice.Keys == direct.Keys;
    forall k | k in direct ensures twice[k] == direct[k] {
      StateOverwritten(nodes[k], s, t);
    }
  }

  lemma StateOverwritten(attrs: Attrs, s: Value, t: Value)
    ensures attrs[StateKey := s][StateKey := t] == attrs[StateKey := t]
  {
    assert attrs[StateKey := s][StateKey := t].Keys == attrs[StateKey := t].Keys;
  }

  // ------------------------------------------------------ routine lookup

  /** `get_function_from_module(s)`, up to the import: the module path and
      the function name it splits `s` into, at the last dot. */
  function ModuleSplit(s: string): (r: (string, string))
    ensures '.' in s ==> r.0 + "." + r.1 == s && '.' !in r.1
    ensures '.' !in s ==> r.1 == s && r.0 == (if s == [] then [] else s[..|s| - 1])
  {
    var splitIdx := RFind(s, '.');
    var moduleName := SliceTo(s, splitIdx);
    var functionName := SliceFrom(s, splitIdx + 1);
    if splitIdx >= 0 then
      assert s == s[..splitIdx] + "." + s[splitIdx + 1..];
      (moduleName, functionName)
    else
      (moduleName, functionName)
  }

  /** What `_get_function` is handed: a function object or an identifier. */
  datatype RoutineRef = FunctionObject(id: string) | Identifier(text: string)

  /** What it resolves to: the function itself, a method of an open
      instrument, or a function found in a module. */
  datatype Resolution =
    | Direct(id: string)
    | InstrumentMethod(instrument: string, attribute: string)
    | ModuleFunction(moduleName: string, functionName: string)

  /** `NameError`: a global name the code uses is not defined.
      `UnboundLocal`: the result variable was never assigned. */
  datatype ResolveError = NameError(missing: string) | UnboundLocal(variable: string)

  /** `_get_function` as written: its first line refers to `types`, which
      the module never imports, so every call raises `NameError`. */
  function GetFunctionAsWritten(ref: RoutineRef, instruments: map<string, set<string>>): (r: Result<Resolution, ResolveError>)
    ensures r == Err(NameError("types"))
  {
    Err(NameError("types"))
  }

  /** `_get_function` with `types` imported. A function object is used as
      is. An identifier with exactly one dot is first tried as
      `instrument.method` among the open instruments (`instruments` maps each
      to its attribute names); any failure there, including the two-way
      unpack of an identifier with more dots, falls back to the module
      lookup. An identifier without a dot leaves the result unassigned. */
  function GetFunction(ref: RoutineRef, instruments: map<string, set<string>>): (r: Result<Resolution, ResolveError>)
    ensures r.Err? <==> ref.Identifier? && '.' !in ref.text
    ensures r.Err? ==> r.error == UnboundLocal("f")
    ensures ref.FunctionObject? ==> r == Ok(Direct(ref.id))
    ensures r.Ok? && r.value.InstrumentMethod? ==>
      && ref.Identifier? && ref.text == r.value.instrument + "." + r.value.attribute
      && '.' !in r.value.instrument && '.' !in r.value.attribute
      && r.value.instrument in instruments && r.value.attribute in instruments[r.value.instrument]
    ensures r.Ok? && r.value.ModuleFunction? ==>
      ref.Identifier? && ref.text == r.value.moduleName + "." + r.value.functionName && '.' !in r.value.functionName
    ensures ref.Identifier? && multiset(ref.text)['.'] >= 2 ==> r.Ok? && r.value.ModuleFunction?
    ensures ref.Identifier? && r.Ok? ==> !r.value.Direct?
    ensures ref.Identifier? && '.' in ref.text ==>
      var (left, right) := ModuleSplit(ref.text);
      r == if multiset(ref.text)['.'] == 1 && left in instruments && right in instruments[left]
           then Ok(InstrumentMethod(left, right))
           else Ok(ModuleFunction(left, right))
  {
    match ref
    case FunctionObject(id) => Ok(Direct(id))
    case Identifier(s) =>
      if '.' in s then
        var parts := Split(s, '.');
        OneDotSplit(s);
        if |parts| == 2 && parts[0] in instruments && parts[1] in instruments[parts[0]] then
          assert s == Join(parts, '.') == parts[0] + "." + parts[1] by {
            JoinCons(parts[0], parts[1..], '.');
            assert [parts[0]] + parts[1..] == parts;
          }
          Ok(InstrumentMethod(parts[0], parts[1]))
        else
          var (moduleName, functionName) := ModuleSplit(s);
          Ok(ModuleFunction(moduleName, functionName))
      else
        Err(UnboundLocal("f"))
  }

  /** An identifier with exactly one dot naming a method of an open
      instrument resolves to that method. */
  lemma InstrumentMethodFirst(instrument: string, attribute: string, instruments: map<string, set<string>>)
    requires '.' !in instrument && '.' !in attribute
    requires instrument in instruments && attribute in instruments[instrument]
    ensures GetFunction(Identifier(instrument + "." + attribute), instruments) == Ok(InstrumentMethod(instrument, attribute))
  {
    var s := instrument + "." + attribute;
    assert multiset(s)['.'] == 1 by {
      assert multiset(s) == multiset(instrument) + multiset(".") + multiset(attribute);
    }
    assert '.' in s by {
      assert s[|instrument|] == '.';
    }
    var parts := Split(s, '.');
    assert |parts| == 2;
    JoinCons(parts[0], parts[1..], '.');
    assert [parts[0]] + parts[1..] == parts;
    SplitAtUniqueDot(instrument, attribute, parts[0], parts[1]);
  }

  /** Splitting at the dots gives two pieces exactly when there is one dot,
      and then they are the two sides of the last dot. */
  lemma OneDotSplit(s: string)
    requires '.' in s
    ensures |Split(s, '.')| == 2 <==> multiset(s)['.'] == 1
    ensures |Split(s, '.')| == 2 ==> Split(s, '.') == [ModuleSplit(s).0, ModuleSplit(s).1]
  {
  }

  /** Cutting a string with one dot at that dot has one answer. */
  lemma SplitAtUniqueDot(a: string, b: string, c: string, d: string)
    requires '.' !in a && '.' !in b && '.' !in c && '.' !in d
    requires a + "." + b == c + "." + d
    ensures a == c && b == d
  {
    var s := a + "." + b;
    assert s[|a|] == '.' && s[|c|] == '.';
    assert forall i :: 0 <= i < |a| ==> s[i] == a[i];
    assert forall i :: 0 <= i < |c| ==> s[i] == c[i];
    assert |a| == |c|;
    assert a == s[..|a|] == c;
    assert b == s[|a| + 1..] == d;
  }
}
