/** The calibration node of autodepgraph/node.py and its recursive executor.

    Nodes live in a `World`: the registry of open instruments, keyed by name,
    which is where `find_instrument` looks dependencies up. The check and
    calibration routines, found by name in two routine modules, are given as
    tables from routine name to the value the routine returns. */
module Node {

  import opened Wrappers
  import opened States

  /** A node: its state and three list parameters. The list parameters have
      no initial value, so a fresh node holds `None` in each of them. */
  datatype CalibrationNode = CalibrationNode(
    name: string,
    state: State,
    dependencies: Option<seq<string>>,
    checkFunctions: Option<seq<string>>,
    calibrateFunctions: Option<seq<string>>)

  /** A freshly constructed node. */
  function NewNode(name: string): (n: CalibrationNode)
    ensures n.name == name && n.state == Unknown
    ensures n.dependencies == None && n.checkFunctions == None && n.calibrateFunctions == None
  {
    CalibrationNode(name, Unknown, None, None, None)
  }

  /** Open nodes by name. */
  type World = map<string, CalibrationNode>

  /** What each check routine returns and whether each calibration routine
      returns a truthy value (any value Python treats as true); a name
      missing from a table has no routine. */
  datatype Routines = Routines(checks: map<string, string>, calibrations: map<string, bool>)

  /** The exceptions the executor can raise: iterating a list parameter that
      is still `None`, looking up a node that is not open, or naming a routine
      the routine module does not have. */
  datatype ExecError =
    | UnsetParameter(node: string, parameter: string)
    | MissingNode(missing: string)
    | UnknownRoutine(routine: string)

  /** One observable step of an execution, in the order it happens. */
  datatype Event =
    | Executed(node: string)
    | Checked(node: string, routine: string)
    | Calibrated(node: string, routine: string)

  /** A node after `check()` or `calibrate()`, with the routines it invoked. */
  datatype Step = Step(node: CalibrationNode, invoked: seq<string>)

  /** Looks every routine up in `table`, in order; the first missing name fails. */
  function Resolve<T>(table: map<string, T>, routines: seq<string>): (r: Result<seq<T>, ExecError>)
    ensures r.Ok? <==> forall f | f in routines :: f in table
    ensures r.Ok? ==> |r.value| == |routines|
    ensures r.Ok? ==> forall i | 0 <= i < |routines| :: r.value[i] == table[routines[i]]
    ensures r.Err? ==> r.error.UnknownRoutine? && r.error.routine in routines && r.error.routine !in table
  {
    if routines == [] then Ok([])
    else if routines[0] !in table then Err(UnknownRoutine(routines[0]))
    else
      match Resolve(table, routines[1..])
      case Err(e) => Err(e)
      case Ok(rest) => Ok([table[routines[0]]] + rest)
  }

  // ---------------------------------------------------------------- check()

  /** The two flags `check()` raises while it walks the check results. */
  datatype CheckFlags = CheckFlags(needsCalib: bool, broken: bool)

  /** The flags after seeing `results` in order; only the two literal results
      "needs calibration" and "bad" set a flag. */
  function Flags(results: seq<string>): (f: CheckFlags)
    ensures f.broken <==> Name(Bad) in results
    ensures f.needsCalib <==> Name(NeedsCalibration) in results
  {
    if results == [] then CheckFlags(false, false)
    else
      var init := results[..|results| - 1];
      var last := results[|results| - 1];
      assert results == init + [last];
      var before := Flags(init);
      CheckFlags(before.needsCalib || last == Name(NeedsCalibration), before.broken || last == Name(Bad))
  }

  /** The state the three-way branch at the end of `check()` assigns. Its
      last arm is never reached: the first three cover every pair of flags. */
  function Verdict(f: CheckFlags): (s: State)
    ensures s != Active
    ensures s == Bad <==> f.broken
    ensures s == Good <==> !f.broken && !f.needsCalib
    ensures s == NeedsCalibration <==> f.needsCalib && !f.broken
  {
    if !f.needsCalib && !f.broken then Good
    else if f.needsCalib && !f.broken then NeedsCalibration
    else if f.broken then Bad
    else Active
  }

  /** The state `check()` settles on for a sequence of check results. */
  function Aggregate(results: seq<string>): (s: State)
    ensures s == Bad <==> Name(Bad) in results
    ensures s == NeedsCalibration <==> Name(Bad) !in results && Name(NeedsCalibration) in results
    ensures s == Good <==> Name(Bad) !in results && Name(NeedsCalibration) !in results
    ensures s != Active
  {
    Verdict(Flags(results))
  }

  /** A result other than "bad" or "needs calibration", wherever it appears,
      does not change what `check()` decides. */
  lemma {:induction false} IrrelevantResultIgnored(results: seq<string>, i: nat, x: string)
    requires i <= |results|
    requires x != Name(Bad) && x != Name(NeedsCalibration)
    ensures Aggregate(results[..i] + [x] + results[i..]) == Aggregate(results)
  {
    var longer := results[..i] + [x] + results[i..];
    assert results == results[..i] + results[i..];
    forall y | y != x
      ensures y in longer <==> y in results
    {
      if y in longer {
        var k :| 0 <= k < |longer| && longer[k] == y;
        if k < i {
          assert results[k] == y;
        } else {
          assert k > i && results[k - 1] == y;
        }
      }
      if y in results {
        var k :| 0 <= k < |results| && results[k] == y;
        if k < i {
          assert longer[k] == y;
        } else {
          assert longer[k + 1] == y;
        }
      }
    }
  }

  /** `check()`: marks the node active, runs every check routine in order and
      stores the aggregated verdict, which it also returns. */
  function Check(n: CalibrationNode, routines: Routines): (r: Result<Step, ExecError>)
    ensures r.Ok? <==> n.checkFunctions.Some? && forall f | f in n.checkFunctions.value :: f in routines.checks
    ensures r.Ok? ==> r.value.node == n.(state := r.value.node.state)
    ensures r.Ok? ==> r.value.invoked == n.checkFunctions.value
    ensures r.Ok? ==> r.value.node.state != Active
    ensures r.Ok? ==>
      (r.value.node.state == Bad <==>
        exists f | f in n.checkFunctions.value && f in routines.checks :: routines.checks[f] == Name(Bad))
    ensures r.Ok? ==>
      (r.value.node.state == NeedsCalibration <==>
        && (forall f | f in n.checkFunctions.value && f in routines.checks :: routines.checks[f] != Name(Bad))
        && exists f | f in n.checkFunctions.value && f in routines.checks :: routines.checks[f] == Name(NeedsCalibration))
    ensures r.Ok? ==>
      (r.value.node.state == Good <==>
        forall f | f in n.checkFunctions.value && f in routines.checks ::
          routines.checks[f] != Name(Bad) && routines.checks[f] != Name(NeedsCalibration))
  {
    match n.checkFunctions
    case None => Err(UnsetParameter(n.name, "check_functions"))
    case Some(fns) =>
      var active := n.(state := Active);
      match Resolve(routines.checks, fns)
      case Err(e) => Err(e)
      case Ok(results) =>
        assert forall f | f in fns :: routines.checks[f] in results by {
          forall f | f in fns ensures routines.checks[f] in results {
            var i :| 0 <= i < |fns| && fns[i] == f;
            assert results[i] == routines.checks[f];
          }
        }
        assert forall v | v in results :: exists f | f in fns :: routines.checks[f] == v by {
          forall v | v in results ensures exists f | f in fns :: routines.checks[f] == v {
            var i :| 0 <= i < |results| && results[i] == v;
            assert fns[i] in fns;
          }
        }
        Ok(Step(active.(state := Aggregate(results)), fns))
  }

  // ------------------------------------------------------------ calibrate()

  /** The running `f() and result` of `calibrate()`, from left to right:
      it stays the literal `True` while every return value is truthy, and
      becomes the first falsy one otherwise, so `result is True` holds
      exactly when all of them were truthy. */
  function Conjoin(results: seq<bool>): (b: bool)
    ensures b <==> forall i | 0 <= i < |results| :: results[i]
  {
    if results == [] then true
    else results[|results| - 1] && Conjoin(results[..|results| - 1])
  }

  /** `calibrate()`: marks the node active, invokes every calibration routine
      exactly once and in order, even after one has failed, and ends `good`
      when all of them succeeded and `bad` otherwise. */
  function Calibrate(n: CalibrationNode, routines: Routines): (r: Result<Step, ExecError>)
    ensures r.Ok? <==>
      n.calibrateFunctions.Some? && forall f | f in n.calibrateFunctions.value :: f in routines.calibrations
    ensures r.Ok? ==> r.value.node == n.(state := r.value.node.state)
    ensures r.Ok? ==> r.value.invoked == n.calibrateFunctions.value
    ensures r.Ok? ==> r.value.node.state == Good || r.value.node.state == Bad
    ensures r.Ok? ==>
      (r.value.node.state == Good <==>
        forall f | f in n.calibrateFunctions.value && f in routines.calibrations :: routines.calibrations[f])
  {
    match n.calibrateFunctions
    case None => Err(UnsetParameter(n.name, "calibrate_functions"))
    case Some(fns) =>
      var active := n.(state := Active);
      match Resolve(routines.calibrations, fns)
      case Err(e) => Err(e)
      case Ok(results) =>
        assert (forall i | 0 <= i < |results| :: results[i]) <==>
               (forall f | f in fns :: routines.calibrations[f]) by {
          if forall i | 0 <= i < |results| :: results[i] {
            forall f | f in fns ensures routines.calibrations[f] {
              var i :| 0 <= i < |fns| && fns[i] == f;
              assert results[i];
            }
          }
        }
        var success := Conjoin(results);
        Ok(Step(active.(state := if success then Good else Bad), fns))
  }

  // ------------------------------------------------------- execute_node()

  /** How a dependency's answer is judged. `AsWritten` is the program text:
      `__call__` drops the state `execute_node` returns, so the call yields
      `None`, which never equals "good". `Intended` is what the docstring of
      `check_dependencies` describes: the dependency's state after its own
      execution is compared with `good`. */
  datatype CallMode = AsWritten | Intended

  predicate Satisfied(mode: CallMode, s: State)
  {
    match mode
    case AsWritten => false
    case Intended => s == Good
  }

  /** The dependency list of a node, empty while it is unset. */
  function DependenciesOf(n: CalibrationNode): seq<string>
  {
    n.dependencies.GetOr([])
  }

  /** `rank` strictly decreases along every dependency: the world is acyclic.
      The program never checks this; without it execution does not end. */
  ghost predicate Ranked(w: World, rank: string -> nat)
  {
    forall k | k in w :: forall d | d in DependenciesOf(w[k]) :: rank(d) < rank(k)
  }

  /** `w2` differs from `w` in node states at most. */
  ghost predicate SameShape(w: World, w2: World)
  {
    && w2.Keys == w.Keys
    && forall k | k in w :: w2[k] == w[k].(state := w2[k].state)
  }

  lemma SameShapeRanked(w: World, w2: World, rank: string -> nat)
    requires Ranked(w, rank) && SameShape(w, w2)
    ensures Ranked(w2, rank)
  {
    forall k | k in w2
      ensures forall d | d in DependenciesOf(w2[k]) :: rank(d) < rank(k)
    {
      assert DependenciesOf(w2[k]) == DependenciesOf(w[k]);
    }
  }

  /** Every node of `w` that `trace` does not record as executed is the same
      in `w2`. */
  ghost predicate UnexecutedKept(w: World, w2: World, trace: seq<Event>)
  {
    forall k | k in w && Executed(k) !in trace :: k in w2 && w2[k] == w[k]
  }

  /** Every node of `w` that is `good` is the same in `w2`. */
  ghost predicate GoodKept(w: World, w2: World)
  {
    forall k | k in w && w[k].state == Good :: k in w2 && w2[k] == w[k]
  }

  /** The world after an execution, and everything that happened in it. */
  datatype Run = Run(world: World, trace: seq<Event>)

  /** The world after `check_dependencies`, its events, the state each
      dependency had right after its own execution, and the verdict. */
  datatype DependencyRun = DependencyRun(world: World, trace: seq<Event>, after: seq<State>, satisfied: bool)

  function CheckEvents(name: string, fns: seq<string>): (r: seq<Event>)
    ensures |r| == |fns| && forall i | 0 <= i < |fns| :: r[i] == Checked(name, fns[i])
  {
    seq(|fns|, i requires 0 <= i < |fns| => Checked(name, fns[i]))
  }

  function CalibrateEvents(name: string, fns: seq<string>): (r: seq<Event>)
    ensures |r| == |fns| && forall i | 0 <= i < |fns| :: r[i] == Calibrated(name, fns[i])
  {
    seq(|fns|, i requires 0 <= i < |fns| => Calibrated(name, fns[i]))
  }

  /** The states an execution can leave its target in. */
  predicate Settled(s: State)
  {
    s == Good || s == Bad || s == Unknown
  }

  lemma SameShapeTrans(w: World, w1: World, w2: World)
    requires SameShape(w, w1) && SameShape(w1, w2)
    ensures SameShape(w, w2)
  {
  }

  /** The last part of `execute_node()`, once the dependencies have run: a
      satisfied node is checked and then calibrated, unconditionally; an
      unsatisfied one is set to `unknown`. */
  function Settle(w: World, routines: Routines, name: string, satisfied: bool): (r: Result<Run, ExecError>)
    requires name in w
    ensures r.Ok? ==> SameShape(w, r.value.world)
    ensures r.Ok? ==> forall k | k in w && k != name :: r.value.world[k] == w[k]
    ensures r.Ok? ==> Settled(r.value.world[name].state)
    ensures r.Ok? ==> forall e | e in r.value.trace :: e.node == name
    ensures !satisfied ==> r == Ok(Run(w[name := w[name].(state := Unknown)], []))
    ensures satisfied ==>
      (r.Ok? <==>
        && w[name].checkFunctions.Some? && (forall f | f in w[name].checkFunctions.value :: f in routines.checks)
        && w[name].calibrateFunctions.Some? && (forall f | f in w[name].calibrateFunctions.value :: f in routines.calibrations))
    ensures r.Ok? && satisfied ==>
      && w[name].checkFunctions.Some? && w[name].calibrateFunctions.Some?
      && r.value.trace == CheckEvents(name, w[name].checkFunctions.value)
                          + CalibrateEvents(name, w[name].calibrateFunctions.value)
      && (r.value.world[name].state == Good || r.value.world[name].state == Bad)
      && (r.value.world[name].state == Good <==>
            forall f | f in w[name].calibrateFunctions.value && f in routines.calibrations :: routines.calibrations[f])
  {
    if satisfied then
      match Check(w[name], routines)
      case Err(e) => Err(e)
      case Ok(checked) =>
        match Calibrate(checked.node, routines)
        case Err(e) => Err(e)
        case Ok(calibrated) =>
          Ok(Run(w[name := calibrated.node], CheckEvents(name, checked.invoked) + CalibrateEvents(name, calibrated.invoked)))
    else
      Ok(Run(w[name := w[name].(state := Unknown)], []))
  }

  /** `execute_node()`: a `good` node is left alone; otherwise every
      dependency is executed, and only when all of them are satisfied does the
      node run `check()` and then `calibrate()`; if not, it becomes `unknown`. */
  function Execute(mode: CallMode, w: World, routines: Routines, rank: string -> nat, name: string): (r: Result<Run, ExecError>)
    requires name in w && Ranked(w, rank)
    ensures r.Ok? ==> SameShape(w, r.value.world)
    ensures r.Ok? ==> |r.value.trace| > 0 && r.value.trace[0] == Executed(name)
    ensures r.Ok? ==> UnexecutedKept(w, r.value.world, r.value.trace)
    ensures r.Ok? ==> GoodKept(w, r.value.world)
    ensures r.Ok? ==> forall e | e in r.value.trace :: rank(e.node) <= rank(name)
    ensures r.Ok? ==> Settled(r.value.world[name].state) || w[name].state == Good
    ensures w[name].state == Good ==> r == Ok(Run(w, [Executed(name)]))
    ensures w[name].state != Good && w[name].dependencies.None? ==> r == Err(UnsetParameter(name, "dependencies"))
    decreases rank(name), 1, 0
  {
    var n := w[name];
    if n.state == Good then Ok(Run(w, [Executed(name)]))
    else
      match n.dependencies
      case None => Err(UnsetParameter(name, "dependencies"))
      case Some(deps) =>
        assert DependenciesOf(n) == deps;
        match CheckDependencies(mode, w, routines, rank, rank(name), deps)
        case Err(e) => Err(e)
        case Ok(dr) =>
          match Settle(dr.world, routines, name, dr.satisfied)
          case Err(e) => Err(e)
          case Ok(own) =>
            SameShapeTrans(w, dr.world, own.world);
            ConcatRanks(dr.trace, own.trace, rank, name);
            Ok(Run(own.world, [Executed(name)] + dr.trace + own.trace))
  }

  /** Events of dependencies rank below `name`, its own events are about it. */
  lemma ConcatRanks(deps: seq<Event>, own: seq<Event>, rank: string -> nat, name: string)
    requires forall e | e in deps :: rank(e.node) < rank(name)
    requires forall e | e in own :: e.node == name
    ensures forall e | e in [Executed(name)] + deps + own :: rank(e.node) <= rank(name)
  {
  }

  lemma ConcatExecuted(first: seq<Event>, rest: seq<Event>, deps: seq<string>)
    requires deps != [] && |first| > 0 && first[0] == Executed(deps[0])
    requires forall i | 0 <= i < |deps[1..]| :: Executed(deps[1..][i]) in rest
    ensures forall i | 0 <= i < |deps| :: Executed(deps[i]) in first + rest
  {
    forall i | 0 <= i < |deps|
      ensures Executed(deps[i]) in first + rest
    {
      if i == 0 {
        assert (first + rest)[0] == Executed(deps[0]);
      } else {
        assert deps[i] == deps[1..][i - 1];
        assert Executed(deps[1..][i - 1]) in rest;
      }
    }
  }

  lemma ConsSatisfied(mode: CallMode, s: State, after: seq<State>, satisfied: bool)
    requires satisfied <==> forall i | 0 <= i < |after| :: Satisfied(mode, after[i])
    ensures (Satisfied(mode, s) && satisfied) <==> forall i | 0 <= i < |[s] + after| :: Satisfied(mode, ([s] + after)[i])
  {
    if forall i | 0 <= i < |[s] + after| :: Satisfied(mode, ([s] + after)[i]) {
      assert Satisfied(mode, ([s] + after)[0]);
      forall i | 0 <= i < |after| ensures Satisfied(mode, after[i]) {
        assert ([s] + after)[i + 1] == after[i];
      }
    }
  }

  /** `check_dependencies()`: executes every dependency in order, with no
      short-circuit, and is satisfied only when each one is. */
  function CheckDependencies(mode: CallMode, w: World, routines: Routines, rank: string -> nat, bound: nat, deps: seq<string>): (r: Result<DependencyRun, ExecError>)
    requires Ranked(w, rank)
    requires forall d | d in deps :: rank(d) < bound
    ensures r.Ok? ==> SameShape(w, r.value.world)
    ensures r.Ok? ==> forall d | d in deps :: d in w
    ensures r.Ok? ==> |r.value.after| == |deps|
    ensures r.Ok? ==> (r.value.satisfied <==> forall i | 0 <= i < |deps| :: Satisfied(mode, r.value.after[i]))
    ensures r.Ok? ==> forall i | 0 <= i < |deps| :: Executed(deps[i]) in r.value.trace
    ensures r.Ok? ==> UnexecutedKept(w, r.value.world, r.value.trace)
    ensures r.Ok? ==> GoodKept(w, r.value.world)
    ensures r.Ok? ==> forall e | e in r.value.trace :: rank(e.node) < bound
    ensures deps == [] ==> r == Ok(DependencyRun(w, [], [], true))
    ensures r.Ok? && deps != [] ==>
      && deps[0] in w
      && Execute(mode, w, routines, rank, deps[0]).Ok?
      && r.value.after[0] == Execute(mode, w, routines, rank, deps[0]).value.world[deps[0]].state
    decreases bound, 0, |deps|
  {
    if deps == [] then Ok(DependencyRun(w, [], [], true))
    else if deps[0] !in w then Err(MissingNode(deps[0]))
    else
      match Execute(mode, w, routines, rank, deps[0])
      case Err(e) => Err(e)
      case Ok(first) =>
        SameShapeRanked(w, first.world, rank);
        match CheckDependencies(mode, first.world, routines, rank, bound, deps[1..])
        case Err(e) => Err(e)
        case Ok(rest) =>
          var s := first.world[deps[0]].state;
          SameShapeTrans(w, first.world, rest.world);
          ConcatExecuted(first.trace, rest.trace, deps);
          ConsSatisfied(mode, s, rest.after, rest.satisfied);
          assert forall d | d in deps :: d == deps[0] || d in deps[1..];
          Ok(DependencyRun(rest.world, first.trace + rest.trace, [s] + rest.after, Satisfied(mode, s) && rest.satisfied))
  }

  /** One iteration of the loop in `check_dependencies()`: a missing first
      dependency raises; otherwise it is executed, and the remaining ones
      then run in the world it left behind. The first dependency's state
      right after its own execution is recorded ahead of theirs and judged
      with them. An exception anywhere ends the loop with that exception. */
  lemma CheckDependenciesStep(mode: CallMode, w: World, routines: Routines, rank: string -> nat, bound: nat, deps: seq<string>)
    requires Ranked(w, rank)
    requires forall d | d in deps :: rank(d) < bound
    requires deps != []
    ensures deps[0] !in w ==> CheckDependencies(mode, w, routines, rank, bound, deps) == Err(MissingNode(deps[0]))
    ensures deps[0] in w && Execute(mode, w, routines, rank, deps[0]).Err? ==>
      CheckDependencies(mode, w, routines, rank, bound, deps) == Err(Execute(mode, w, routines, rank, deps[0]).error)
    ensures deps[0] in w && Execute(mode, w, routines, rank, deps[0]).Ok? ==>
      var first := Execute(mode, w, routines, rank, deps[0]).value;
      var s := first.world[deps[0]].state;
      && Ranked(first.world, rank)
      && var tail := CheckDependencies(mode, first.world, routines, rank, bound, deps[1..]);
         && (tail.Err? ==> CheckDependencies(mode, w, routines, rank, bound, deps) == Err(tail.error))
         && (tail.Ok? ==> (CheckDependencies(mode, w, routines, rank, bound, deps) ==
                             Ok(DependencyRun(tail.value.world, first.trace + tail.value.trace,
                                              [s] + tail.value.after, Satisfied(mode, s) && tail.value.satisfied))))
  {
  }

  // ------------------------------------------------------------ properties

  /** When the dependencies of a node that is not `good` are satisfied,
      `execute_node()` runs every check routine and then every calibration
      routine of the node, after the dependencies' events, and the node ends
      with the outcome of `calibrate()` whatever `check()` said; no other
      node changes after the dependencies ran. */
  lemma ExecuteSatisfied(mode: CallMode, w: World, routines: Routines, rank: string -> nat, name: string)
    requires name in w && Ranked(w, rank)
    requires w[name].state != Good && w[name].dependencies.Some?
    requires
      var dr := CheckDependencies(mode, w, routines, rank, rank(name), DependenciesOf(w[name]));
      dr.Ok? && dr.value.satisfied
    requires Execute(mode, w, routines, rank, name).Ok?
    ensures w[name].checkFunctions.Some? && w[name].calibrateFunctions.Some?
    ensures
      var dr := CheckDependencies(mode, w, routines, rank, rank(name), DependenciesOf(w[name])).value;
      var run := Execute(mode, w, routines, rank, name).value;
      && run.trace == [Executed(name)] + dr.trace
                      + CheckEvents(name, w[name].checkFunctions.value)
                      + CalibrateEvents(name, w[name].calibrateFunctions.value)
      && run.world == dr.world[name := w[name].(state := run.world[name].state)]
      && (run.world[name].state == Good || run.world[name].state == Bad)
      && (run.world[name].state == Good <==>
            forall f | f in w[name].calibrateFunctions.value && f in routines.calibrations :: routines.calibrations[f])
  {
    var dr := CheckDependencies(mode, w, routines, rank, rank(name), DependenciesOf(w[name])).value;
    ExecuteStep(mode, w, routines, rank, name, dr);
    SettleSatisfied(dr.world, routines, name, w[name]);
    ExecuteWorld(mode, w, routines, rank, name);
    var checks := CheckEvents(name, w[name].checkFunctions.value);
    var calibrations := CalibrateEvents(name, w[name].calibrateFunctions.value);
    AppendAssoc([Executed(name)] + dr.trace, checks, calibrations);
  }

  lemma AppendAssoc<T>(a: seq<T>, b: seq<T>, c: seq<T>)
    ensures a + (b + c) == a + b + c
  {
  }

  /** An execution of a node that is not `good` and has a dependency list
      succeeds exactly when its dependency call does and the node's own check
      and calibration then do. */
  lemma ExecuteOk(mode: CallMode, w: World, routines: Routines, rank: string -> nat, name: string)
    requires name in w && Ranked(w, rank)
    requires w[name].state != Good && w[name].dependencies.Some?
    ensures
      var dr := CheckDependencies(mode, w, routines, rank, rank(name), DependenciesOf(w[name]));
      Execute(mode, w, routines, rank, name).Ok? <==>
        dr.Ok? && name in dr.value.world && Settle(dr.value.world, routines, name, dr.value.satisfied).Ok?
  {
  }

  /** One execution of a node that is not `good`, in terms of its two
      halves: the dependency call and then `Settle`. */
  lemma ExecuteStep(mode: CallMode, w: World, routines: Routines, rank: string -> nat, name: string, dr: DependencyRun)
    requires name in w && Ranked(w, rank)
    requires w[name].state != Good && w[name].dependencies.Some?
    requires CheckDependencies(mode, w, routines, rank, rank(name), DependenciesOf(w[name])) == Ok(dr)
    requires Execute(mode, w, routines, rank, name).Ok?
    ensures name in dr.world
    ensures dr.world[name] == w[name].(state := dr.world[name].state)
    ensures
      var own := Settle(dr.world, routines, name, dr.satisfied);
      && own.Ok?
      && Execute(mode, w, routines, rank, name).value == Run(own.value.world, [Executed(name)] + dr.trace + own.value.trace)
  {
  }

  /** `Settle` on a satisfied node depends only on the node's lists, not on
      the state the dependency call left it in. */
  lemma SettleSatisfied(w: World, routines: Routines, name: string, n: CalibrationNode)
    requires name in w && w[name] == n.(state := w[name].state)
    requires Settle(w, routines, name, true).Ok?
    ensures n.checkFunctions.Some? && n.calibrateFunctions.Some?
    ensures
      var own := Settle(w, routines, name, true).value;
      && own.trace == CheckEvents(name, n.checkFunctions.value) + CalibrateEvents(name, n.calibrateFunctions.value)
      && (own.world[name].state == Good || own.world[name].state == Bad)
      && (own.world[name].state == Good <==>
            forall f | f in n.calibrateFunctions.value && f in routines.calibrations :: routines.calibrations[f])
  {
  }

  /** After its dependencies ran, execution changes only the node's own
      state. */
  lemma ExecuteWorld(mode: CallMode, w: World, routines: Routines, rank: string -> nat, name: string)
    requires name in w && Ranked(w, rank)
    requires w[name].state != Good && w[name].dependencies.Some?
    requires CheckDependencies(mode, w, routines, rank, rank(name), DependenciesOf(w[name])).Ok?
    requires Execute(mode, w, routines, rank, name).Ok?
    ensures
      var dr := CheckDependencies(mode, w, routines, rank, rank(name), DependenciesOf(w[name])).value;
      var run := Execute(mode, w, routines, rank, name).value;
      run.world == dr.world[name := w[name].(state := run.world[name].state)]
  {
    var dr := CheckDependencies(mode, w, routines, rank, rank(name), DependenciesOf(w[name])).value;
    ExecuteStep(mode, w, routines, rank, name, dr);
    var own := Settle(dr.world, routines, name, dr.satisfied).value;
    var expected := dr.world[name := w[name].(state := own.world[name].state)];
    assert own.world.Keys == expected.Keys;
    assert forall k | k in expected :: own.world[k] == expected[k];
  }

  /** When they are not satisfied the node ends `unknown`, and none of its
      own check or calibration routines runs. */
  lemma ExecuteUnsatisfied(mode: CallMode, w: World, routines: Routines, rank: string -> nat, name: string)
    requires name in w && Ranked(w, rank)
    requires w[name].state != Good && w[name].dependencies.Some?
    requires
      var dr := CheckDependencies(mode, w, routines, rank, rank(name), DependenciesOf(w[name]));
      dr.Ok? && !dr.value.satisfied
    requires Execute(mode, w, routines, rank, name).Ok?
    ensures
      var dr := CheckDependencies(mode, w, routines, rank, rank(name), DependenciesOf(w[name])).value;
      var run := Execute(mode, w, routines, rank, name).value;
      && run.world == dr.world[name := w[name].(state := Unknown)]
      && run.world[name].state == Unknown
      && forall e | e in run.trace && e.node == name :: e == Executed(name)
  {
    var dr := CheckDependencies(mode, w, routines, rank, rank(name), DependenciesOf(w[name])).value;
    var run := Execute(mode, w, routines, rank, name).value;
    ExecuteWorld(mode, w, routines, rank, name);
    assert run.trace == [Executed(name)] + dr.trace;
    forall e | e in run.trace && e.node == name
      ensures e == Executed(name)
    {
      assert e !in dr.trace;
    }
  }

  /** The program as written: since a dependency call yields `None`, a
      non-empty dependency list is never satisfied, whatever the dependencies
      end up as. */
  lemma LiteralCallNeverSatisfies(w: World, routines: Routines, rank: string -> nat, bound: nat, deps: seq<string>)
    requires Ranked(w, rank)
    requires forall d | d in deps :: rank(d) < bound
    requires deps != []
    requires CheckDependencies(AsWritten, w, routines, rank, bound, deps).Ok?
    ensures !CheckDependencies(AsWritten, w, routines, rank, bound, deps).value.satisfied
  {
    var dr := CheckDependencies(AsWritten, w, routines, rank, bound, deps).value;
    assert !Satisfied(AsWritten, dr.after[0]);
  }

  /** Hence, as written, a node that is not `good` and has any dependency
      always ends `unknown` without running its own routines. */
  lemma LiteralExecuteEndsUnknown(w: World, routines: Routines, rank: string -> nat, name: string)
    requires name in w && Ranked(w, rank)
    requires w[name].state != Good
    requires w[name].dependencies.Some? && w[name].dependencies.value != []
    requires Execute(AsWritten, w, routines, rank, name).Ok?
    ensures Execute(AsWritten, w, routines, rank, name).value.world[name].state == Unknown
  {
    LiteralCallNeverSatisfies(w, routines, rank, rank(name), DependenciesOf(w[name]));
    ExecuteUnsatisfied(AsWritten, w, routines, rank, name);
  }
}
