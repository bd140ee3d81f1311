/**
 * The driver `main` (main.py): check the argument count, take the loaded
 * suite, run every test in suite order counting failures, and pick the
 * summary banner. Each test's run is given as the matching `RunOutcome`.
 */
module Driver {

  import opened Wrappers
  import opened Executor
  import Summary

  /** What a completed run reports: the per-test verdicts in the order they
      were printed, the failure count and the closing banner. */
  datatype Report = Report(verdicts: seq<bool>, failedCount: nat, summary: string)

  /** The verdicts of the suite, test by test. */
  function Verdicts(tests: seq<TestCase>, outcomes: seq<RunOutcome>, decode: Decoder): (vs: seq<bool>)
    requires |outcomes| == |tests|
  {
    seq(|tests|, i requires 0 <= i < |tests| => Verdict(tests[i], outcomes[i], decode))
  }

  /** The number of failed verdicts, counted from the front. */
  function CountFailed(vs: seq<bool>): nat
    decreases |vs|
  {
    if vs == [] then 0 else CountFailed(vs[..|vs| - 1]) + (if vs[|vs| - 1] then 0 else 1)
  }

  lemma {:induction false} CountFailedBounds(vs: seq<bool>)
    ensures CountFailed(vs) <= |vs|
    ensures CountFailed(vs) == 0 <==> forall i :: 0 <= i < |vs| ==> vs[i]
    ensures CountFailed(vs) == |vs| <==> forall i :: 0 <= i < |vs| ==> !vs[i]
    decreases |vs|
  {
    if vs != [] {
      var init := vs[..|vs| - 1];
      CountFailedBounds(init);
      assert forall i :: 0 <= i < |init| ==> init[i] == vs[i];
    }
  }

  /** Independent reference: the count is the multiplicity of `false`. */
  lemma {:induction false} CountFailedIsMultiplicity(vs: seq<bool>)
    ensures CountFailed(vs) == multiset(vs)[false]
    decreases |vs|
  {
    if vs != [] {
      var init := vs[..|vs| - 1];
      CountFailedIsMultiplicity(init);
      assert vs == init + [vs[|vs| - 1]];
      assert multiset(vs) == multiset(init) + multiset{vs[|vs| - 1]};
    }
  }

  /** `main`: `None` when it returns early (wrong argument count, or no suite
      could be loaded), otherwise the report of the run. */
  method Run(args: seq<string>, suite: Option<seq<TestCase>>, outcomes: seq<RunOutcome>, decode: Decoder)
    returns (report: Option<Report>)
    requires |args| == 3 && suite.Some? ==> |outcomes| == |suite.value|
    ensures |args| != 3 ==> report.None?
    ensures suite.None? ==> report.None?
    ensures |args| == 3 && suite.Some? ==>
      report.Some? &&
      report.value.verdicts == Verdicts(suite.value, outcomes, decode) &&
      (forall i :: 0 <= i < |suite.value| ==>
         report.value.verdicts[i] == Verdict(suite.value[i], outcomes[i], decode)) &&
      report.value.failedCount == multiset(report.value.verdicts)[false] &&
      report.value.failedCount <= |suite.value| &&
      report.value.summary == Summary.Message(report.value.failedCount)
  {
    if |args| != 3 {
      return None;
    }
    if suite.None? {
      return None;
    }
    var tests := suite.value;
    var failedCount := 0;
    var verdicts := [];
    var i := 0;
    while i < |tests|
      invariant 0 <= i <= |tests|
      invariant verdicts == Verdicts(tests[..i], outcomes[..i], decode)
      invariant failedCount == CountFailed(verdicts)
    {
      var passed := RunTest(tests[i], outcomes[i], decode);
      if !passed {
        failedCount := failedCount + 1;
      }
      assert (verdicts + [passed])[..|verdicts|] == verdicts;
      verdicts := verdicts + [passed];
      i := i + 1;
    }
    assert tests[..i] == tests && outcomes[..i] == outcomes;
    CountFailedIsMultiplicity(verdicts);
    CountFailedBounds(verdicts);
    report := Some(Report(verdicts, failedCount, Summary.Message(failedCount)));
  }

  /** The banner says "All Tests Passed!" exactly when every test passed. */
  lemma AllPassedIffEveryVerdict(tests: seq<TestCase>, outcomes: seq<RunOutcome>, decode: Decoder)
    requires |outcomes| == |tests|
    ensures Summary.Message(CountFailed(Verdicts(tests, outcomes, decode))) == Summary.AllPassed
        <==> forall i :: 0 <= i < |tests| ==> Verdict(tests[i], outcomes[i], decode)
  {
    var vs := Verdicts(tests, outcomes, decode);
    CountFailedBounds(vs);
    Summary.AllPassedIffZero(CountFailed(vs));
    assert forall i :: 0 <= i < |tests| ==> vs[i] == Verdict(tests[i], outcomes[i], decode);
  }

  /** An empty suite runs nothing and reports that all tests passed. */
  lemma EmptySuite(decode: Decoder)
    ensures Summary.Message(CountFailed(Verdicts([], [], decode))) == Summary.AllPassed
  {
  }
}
