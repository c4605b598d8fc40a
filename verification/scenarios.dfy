/** The three-node graph of the node-logic tests (A depends on B and C, B on
    C), run through the model of `execute_node()`. */
module Scenarios {

  import opened Wrappers
  import opened States
  import opened Node

  /** The constant routines of `node_functions/check_functions.py` and
      `node_functions/calibration_functions.py`. `node.py` imports its
      routines from `autodepgraph.check_functions` and
      `autodepgraph.calibrate_functions`, which are not part of this model;
      the scenarios take them to define the same constants. */
  const TestRoutines: Routines := Routines(
    map["test_check_good" := "good",
        "test_check_bad" := "bad",
        "test_check_needs_calibration" := "needs calibration"],
    map["test_calibration_True" := true,
        "test_calibration_True_delayed" := true,
        "test_calibration_False" := false])

  function TestNode(name: string, deps: seq<string>, check: string, calibration: string): CalibrationNode
  {
    CalibrationNode(name, Unknown, Some(deps), Some([check]), Some([calibration]))
  }

  function TestWorld(checkA: string, checkB: string, checkC: string, calB: string): World
  {
    map["A" := TestNode("A", ["B", "C"], checkA, "test_calibration_True"),
        "B" := TestNode("B", ["C"], checkB, calB),
        "C" := TestNode("C", [], checkC, "test_calibration_True")]
  }

  function TestRank(name: string): nat
  {
    if name == "A" then 2 else if name == "B" then 1 else 0
  }

  lemma TestWorldNodes(checkA: string, checkB: string, checkC: string, calB: string)
    ensures var w := TestWorld(checkA, checkB, checkC, calB);
      && "A" in w && "B" in w && "C" in w
      && w["A"] == TestNode("A", ["B", "C"], checkA, "test_calibration_True")
      && w["B"] == TestNode("B", ["C"], checkB, calB)
      && w["C"] == TestNode("C", [], checkC, "test_calibration_True")
      && DependenciesOf(w["A"]) == ["B", "C"]
  {
  }

  lemma TestWorldRanked(checkA: string, checkB: string, checkC: string, calB: string)
    ensures Ranked(TestWorld(checkA, checkB, checkC, calB), TestRank)
  {
  }

  /** A node whose single check routine and single calibration routine are
      known, and whose dependencies are satisfied, settles on the outcome of
      its calibration routine. */
  lemma SettleSingle(w: World, name: string, check: string, calibration: string)
    requires name in w
    requires w[name].checkFunctions == Some([check]) && check in TestRoutines.checks
    requires w[name].calibrateFunctions == Some([calibration]) && calibration in TestRoutines.calibrations
    ensures Settle(w, TestRoutines, name, true) ==
      Ok(Run(w[name := w[name].(state := if TestRoutines.calibrations[calibration] then Good else Bad)],
             [Checked(name, check), Calibrated(name, calibration)]))
  {
    var n := w[name];
    var checked := Check(n, TestRoutines);
    assert checked.Ok?;
    var calibrated := Calibrate(checked.value.node, TestRoutines);
    assert calibrated.Ok?;
    var s := calibrated.value.node.state;
    assert s == Good <==> TestRoutines.calibrations[calibration] by {
      assert forall f | f in [calibration] :: f == calibration;
    }
    assert calibrated.value.node == n.(state := s);
    assert s == if TestRoutines.calibrations[calibration] then Good else Bad;
    assert CheckEvents(name, [check]) == [Checked(name, check)];
    assert CalibrateEvents(name, [calibration]) == [Calibrated(name, calibration)];
    assert checked.value.invoked == [check];
    assert calibrated.value.invoked == [calibration];
    assert Settle(w, TestRoutines, name, true) ==
      Ok(Run(w[name := calibrated.value.node], CheckEvents(name, [check]) + CalibrateEvents(name, [calibration])));
    assert CheckEvents(name, [check]) + CalibrateEvents(name, [calibration]) == [Checked(name, check), Calibrated(name, calibration)];
    assert w[name := calibrated.value.node] == w[name := w[name].(state := if TestRoutines.calibrations[calibration] then Good else Bad)];
  }

  /** The state a single calibration routine leads to. */
  function Outcome(calibration: string): State
    requires calibration in TestRoutines.calibrations
  {
    if TestRoutines.calibrations[calibration] then Good else Bad
  }

  /** One execution of a node with a single check and a single calibration
      routine whose dependencies were satisfied. */
  lemma ExecuteSingleSatisfied(mode: CallMode, w: World, rank: string -> nat, name: string, check: string, calibration: string, dr: DependencyRun)
    requires name in w && Ranked(w, rank)
    requires w[name].state != Good && w[name].dependencies.Some?
    requires w[name].checkFunctions == Some([check]) && check in TestRoutines.checks
    requires w[name].calibrateFunctions == Some([calibration]) && calibration in TestRoutines.calibrations
    requires CheckDependencies(mode, w, TestRoutines, rank, rank(name), DependenciesOf(w[name])) == Ok(dr)
    requires dr.satisfied
    ensures Execute(mode, w, TestRoutines, rank, name) ==
      Ok(Run(dr.world[name := w[name].(state := Outcome(calibration))],
             [Executed(name)] + dr.trace + [Checked(name, check), Calibrated(name, calibration)]))
  {
    var w1 := dr.world;
    assert w1[name] == w[name].(state := w1[name].state);
    SettleSingle(w1, name, check, calibration);
    var own := Settle(w1, TestRoutines, name, true).value;
    assert Execute(mode, w, TestRoutines, rank, name) == Ok(Run(own.world, [Executed(name)] + dr.trace + own.trace));
    assert w1[name].(state := Outcome(calibration)) == w[name].(state := Outcome(calibration));
  }

  /** One execution of a node whose dependencies were not satisfied. */
  lemma ExecuteUnsatisfiedRun(mode: CallMode, w: World, rank: string -> nat, name: string, dr: DependencyRun)
    requires name in w && Ranked(w, rank)
    requires w[name].state != Good && w[name].dependencies.Some?
    requires CheckDependencies(mode, w, TestRoutines, rank, rank(name), DependenciesOf(w[name])) == Ok(dr)
    requires !dr.satisfied
    ensures Execute(mode, w, TestRoutines, rank, name) ==
      Ok(Run(dr.world[name := w[name].(state := Unknown)], [Executed(name)] + dr.trace))
  {
    var w1 := dr.world;
    assert w1[name] == w[name].(state := w1[name].state);
    assert Execute(mode, w, TestRoutines, rank, name) == Ok(Run(w1[name := w1[name].(state := Unknown)], [Executed(name)] + dr.trace + []));
    assert w1[name].(state := Unknown) == w[name].(state := Unknown);
    assert [Executed(name)] + dr.trace + [] == [Executed(name)] + dr.trace;
  }

  /** The routines named in a three-node test world all exist. */
  ghost predicate KnownRoutines(checkA: string, checkB: string, checkC: string, calB: string)
  {
    && checkA in TestRoutines.checks && checkB in TestRoutines.checks && checkC in TestRoutines.checks
    && calB in TestRoutines.calibrations
  }

  /** A node without dependencies, with one check and one calibration
      routine, is checked and then calibrated. */
  lemma RunLeaf(mode: CallMode, w: World, rank: string -> nat, name: string, check: string, calibration: string)
    requires name in w && Ranked(w, rank)
    requires w[name].state != Good && w[name].dependencies == Some([])
    requires w[name].checkFunctions == Some([check]) && check in TestRoutines.checks
    requires w[name].calibrateFunctions == Some([calibration]) && calibration in TestRoutines.calibrations
    ensures Execute(mode, w, TestRoutines, rank, name) ==
      Ok(Run(w[name := w[name].(state := Outcome(calibration))],
             [Executed(name), Checked(name, check), Calibrated(name, calibration)]))
  {
    assert DependenciesOf(w[name]) == [];
    ExecuteSingleSatisfied(mode, w, rank, name, check, calibration, DependencyRun(w, [], [], true));
    assert [Executed(name)] + [] + [Checked(name, check), Calibrated(name, calibration)]
      == [Executed(name), Checked(name, check), Calibrated(name, calibration)];
  }

  /** A node whose one dependency ends `good` settles on its calibration
      when that counts as satisfied, and on `unknown` otherwise. */
  lemma RunAfterGoodDependency(mode: CallMode, w: World, rank: string -> nat, name: string, d: string,
                               check: string, calibration: string, first: Run)
    requires name in w && Ranked(w, rank)
    requires w[name].state != Good && w[name].dependencies == Some([d])
    requires w[name].checkFunctions == Some([check]) && check in TestRoutines.checks
    requires w[name].calibrateFunctions == Some([calibration]) && calibration in TestRoutines.calibrations
    requires d in w && rank(d) < rank(name)
    requires Execute(mode, w, TestRoutines, rank, d) == Ok(first) && first.world[d].state == Good
    ensures
      var r := Execute(mode, w, TestRoutines, rank, name);
      && r.Ok?
      && r.value.world == first.world[name := w[name].(state := if mode == Intended then Outcome(calibration) else Unknown)]
  {
    SameShapeRanked(w, first.world, rank);
    CheckDependenciesStep(mode, w, TestRoutines, rank, rank(name), [d]);
    assert [d][1..] == [] && [d] == DependenciesOf(w[name]);
    var dr := CheckDependencies(mode, w, TestRoutines, rank, rank(name), [d]).value;
    assert dr.world == first.world;
    if mode == Intended {
      ExecuteSingleSatisfied(mode, w, rank, name, check, calibration, dr);
    } else {
      ExecuteUnsatisfiedRun(mode, w, rank, name, dr);
    }
  }

  /** Two dependencies, of which the second is `good` once the first has
      run: the second is executed without effect. */
  lemma TwoDependencies(mode: CallMode, w: World, rank: string -> nat, bound: nat, d1: string, d2: string, first: Run)
    requires Ranked(w, rank) && d1 in w && d2 in w && rank(d1) < bound && rank(d2) < bound
    requires Execute(mode, w, TestRoutines, rank, d1) == Ok(first) && first.world[d2].state == Good
    ensures CheckDependencies(mode, w, TestRoutines, rank, bound, [d1, d2]) ==
      Ok(DependencyRun(first.world, first.trace + [Executed(d2)], [first.world[d1].state, Good],
                       Satisfied(mode, first.world[d1].state) && Satisfied(mode, Good)))
  {
    SameShapeRanked(w, first.world, rank);
    RerunGood(mode, first.world, rank, bound, d2);
    CheckDependenciesStep(mode, w, TestRoutines, rank, bound, [d1, d2]);
    assert [d1, d2][1..] == [d2];
    PairAppend(first.world[d1].state, Good);
  }

  lemma PairAppend<T>(a: T, b: T)
    ensures [a] + [b] == [a, b]
  {
  }

  /** C, which has no dependencies, is checked and calibrated to `good`. */
  lemma RunC(mode: CallMode, checkA: string, checkB: string, checkC: string, calB: string)
    requires KnownRoutines(checkA, checkB, checkC, calB)
    ensures
      var w := TestWorld(checkA, checkB, checkC, calB);
      Execute(mode, w, TestRoutines, TestRank, "C") ==
        Ok(Run(w["C" := w["C"].(state := Good)],
               [Executed("C"), Checked("C", checkC), Calibrated("C", "test_calibration_True")]))
  {
    var w := TestWorld(checkA, checkB, checkC, calB);
    TestWorldRanked(checkA, checkB, checkC, calB);
    RunLeaf(mode, w, TestRank, "C", checkC, "test_calibration_True");
    assert Outcome("test_calibration_True") == Good;
  }

  /** B executes C first and then settles: calibrated when its dependency
      call is satisfied, `unknown` when it is not. */
  lemma RunB(mode: CallMode, checkA: string, checkB: string, checkC: string, calB: string)
    requires KnownRoutines(checkA, checkB, checkC, calB)
    ensures
      var w := TestWorld(checkA, checkB, checkC, calB);
      var r := Execute(mode, w, TestRoutines, TestRank, "B");
      && r.Ok?
      && r.value.world == AfterB(mode, checkA, checkB, checkC, calB)
  {
    var w := TestWorld(checkA, checkB, checkC, calB);
    TestWorldRanked(checkA, checkB, checkC, calB);
    RunC(mode, checkA, checkB, checkC, calB);
    var runC := Execute(mode, w, TestRoutines, TestRank, "C").value;
    RunAfterGoodDependency(mode, w, TestRank, "B", "C", checkB, calB, runC);
  }

  /** The test world once B has run: C is `good` and B has settled. */
  function AfterB(mode: CallMode, checkA: string, checkB: string, checkC: string, calB: string): World
    requires calB in TestRoutines.calibrations
  {
    var w := TestWorld(checkA, checkB, checkC, calB);
    w["C" := w["C"].(state := Good)]["B" := w["B"].(state := if mode == Intended then Outcome(calB) else Unknown)]
  }

  /** A dependency that is already `good` is executed without effect. */
  lemma RerunGood(mode: CallMode, w: World, rank: string -> nat, bound: nat, d: string)
    requires Ranked(w, rank) && d in w && rank(d) < bound
    requires w[d].state == Good
    ensures CheckDependencies(mode, w, TestRoutines, rank, bound, [d]) ==
      Ok(DependencyRun(w, [Executed(d)], [Good], Satisfied(mode, Good)))
  {
    assert Execute(mode, w, TestRoutines, rank, d) == Ok(Run(w, [Executed(d)]));
    assert CheckDependencies(mode, w, TestRoutines, rank, bound, []) == Ok(DependencyRun(w, [], [], true));
    CheckDependenciesStep(mode, w, TestRoutines, rank, bound, [d]);
    assert [d][1..] == [];
    assert [Executed(d)] + [] == [Executed(d)];
    assert [Good] + [] == [Good];
  }

  /** A's dependency call: B runs, then C, which B left `good`, is skipped. */
  lemma RunDependenciesOfA(mode: CallMode, checkA: string, checkB: string, checkC: string, calB: string)
    requires KnownRoutines(checkA, checkB, checkC, calB)
    ensures
      var w := TestWorld(checkA, checkB, checkC, calB);
      var r := CheckDependencies(mode, w, TestRoutines, TestRank, 2, ["B", "C"]);
      && r.Ok?
      && r.value.world == AfterB(mode, checkA, checkB, checkC, calB)
      && (r.value.satisfied <==> mode == Intended && Outcome(calB) == Good)
  {
    var w := TestWorld(checkA, checkB, checkC, calB);
    TestWorldRanked(checkA, checkB, checkC, calB);
    RunB(mode, checkA, checkB, checkC, calB);
    var runB := Execute(mode, w, TestRoutines, TestRank, "B").value;
    assert runB.world["C"].state == Good;
    assert runB.world["B"].state == if mode == Intended then Outcome(calB) else Unknown;
    TwoDependencies(mode, w, TestRank, 2, "B", "C", runB);
  }

  /** The three-node graph of the node-logic tests: C ends `good`; with the
      intended dependency call B ends with the outcome of its calibration and
      A ends `good` exactly when B did, else `unknown`; as written, B and A
      both end `unknown`. The check routines make no difference, because
      `calibrate()` runs whatever `check()` found. */
  lemma ThreeNodeScenario(mode: CallMode, checkA: string, checkB: string, checkC: string, calB: string)
    requires KnownRoutines(checkA, checkB, checkC, calB)
    ensures
      var r := Execute(mode, TestWorld(checkA, checkB, checkC, calB), TestRoutines, TestRank, "A");
      && r.Ok?
      && r.value.world["C"].state == Good
      && r.value.world["B"].state == (if mode == Intended then Outcome(calB) else Unknown)
      && r.value.world["A"].state == (if mode == Intended && Outcome(calB) == Good then Good else Unknown)
  {
    var w := TestWorld(checkA, checkB, checkC, calB);
    TestWorldRanked(checkA, checkB, checkC, calB);
    RunDependenciesOfA(mode, checkA, checkB, checkC, calB);
    TestWorldNodes(checkA, checkB, checkC, calB);
    var drA := CheckDependencies(mode, w, TestRoutines, TestRank, 2, ["B", "C"]).value;
    SettleAfterDependencies(mode, w, TestRank, "A", checkA, "test_calibration_True", drA);
    AfterBStates(mode, checkA, checkB, checkC, calB);
  }

  lemma AfterBStates(mode: CallMode, checkA: string, checkB: string, checkC: string, calB: string)
    requires calB in TestRoutines.calibrations
    ensures
      var wB := AfterB(mode, checkA, checkB, checkC, calB);
      && "A" in wB && "B" in wB && "C" in wB
      && wB["C"].state == Good
      && wB["B"].state == (if mode == Intended then Outcome(calB) else Unknown)
      && wB["A"] == TestWorld(checkA, checkB, checkC, calB)["A"]
      && Outcome("test_calibration_True") == Good
  {
  }

  /** A node with one check and one calibration routine, once its
      dependencies have run: it ends with its calibration's outcome if they
      were satisfied and `unknown` otherwise. */
  lemma SettleAfterDependencies(mode: CallMode, w: World, rank: string -> nat, name: string,
                                check: string, calibration: string, dr: DependencyRun)
    requires name in w && Ranked(w, rank)
    requires w[name].state != Good && w[name].dependencies.Some?
    requires w[name].checkFunctions == Some([check]) && check in TestRoutines.checks
    requires w[name].calibrateFunctions == Some([calibration]) && calibration in TestRoutines.calibrations
    requires CheckDependencies(mode, w, TestRoutines, rank, rank(name), DependenciesOf(w[name])) == Ok(dr)
    ensures
      var r := Execute(mode, w, TestRoutines, rank, name);
      && r.Ok?
      && r.value.world == dr.world[name := w[name].(state := if dr.satisfied then Outcome(calibration) else Unknown)]
  {
    if dr.satisfied {
      ExecuteSingleSatisfied(mode, w, rank, name, check, calibration, dr);
    } else {
      ExecuteUnsatisfiedRun(mode, w, rank, name, dr);
    }
  }

  /** test_all_good and test_all_need_calib: every node ends `good`. The
      tests call `node_a(verbose=True)`, which `__call__` does not accept;
      this lemma and the next two run `execute_node()` on A with the
      intended dependency call instead. */
  lemma AllGoodTest(check: string)
    requires check == "test_check_good" || check == "test_check_needs_calibration"
    ensures
      var r := Execute(Intended, TestWorld(check, check, check, "test_calibration_True"), TestRoutines, TestRank, "A");
      r.Ok? && r.value.world["A"].state == Good && r.value.world["B"].state == Good && r.value.world["C"].state == Good
  {
    ThreeNodeScenario(Intended, check, check, check, "test_calibration_True");
  }

  /** test_B_calibration_bad: B's calibration fails, so B ends `bad` and A,
      whose dependency is unsatisfied, ends `unknown`; C ends `good`. */
  lemma CalibrationBadTest()
    ensures
      var w := TestWorld("test_check_needs_calibration", "test_check_needs_calibration", "test_check_good", "test_calibration_False");
      var r := Execute(Intended, w, TestRoutines, TestRank, "A");
      r.Ok? && r.value.world["A"].state == Unknown && r.value.world["B"].state == Bad && r.value.world["C"].state == Good
  {
    ThreeNodeScenario(Intended, "test_check_needs_calibration", "test_check_needs_calibration", "test_check_good", "test_calibration_False");
  }

  /** test_B_check_bad: B's check reports "bad", but `calibrate()` runs
      anyway and succeeds, so with the intended call B and then A end `good`
      (the test expects B `bad` and A `unknown`; as written B and A end
      `unknown`). */
  lemma CheckBadTest()
    ensures
      var w := TestWorld("test_check_needs_calibration", "test_check_bad", "test_check_good", "test_calibration_True");
      var r := Execute(Intended, w, TestRoutines, TestRank, "A");
      r.Ok? && r.value.world["A"].state == Good && r.value.world["B"].state == Good && r.value.world["C"].state == Good
  {
    ThreeNodeScenario(Intended, "test_check_needs_calibration", "test_check_bad", "test_check_good", "test_calibration_True");
  }

  /** The same run as test_all_good with the dependency call as written:
      A and B end `unknown` instead of `good`. */
  lemma AsWrittenAllGoodTest()
    ensures
      var w := TestWorld("test_check_good", "test_check_good", "test_check_good", "test_calibration_True");
      var r := Execute(AsWritten, w, TestRoutines, TestRank, "A");
      r.Ok? && r.value.world["A"].state == Unknown && r.value.world["B"].state == Unknown && r.value.world["C"].state == Good
  {
    ThreeNodeScenario(AsWritten, "test_check_good", "test_check_good", "test_check_good", "test_calibration_True");
  }
}
