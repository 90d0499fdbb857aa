/**
 * `ci_engine/ibst.py`: impact-based test selection. A test is impacted
 * when the base name of some changed file is one of the file names the
 * test covers. The dependency graph is accepted and never read.
 */
module Ibst {
  import opened Wrappers
  import opened Sequences
  import opened Strings
  import opened PyDict

  /** Some changed file has a base name listed in `covered`. */
  predicate Touches(changedFiles: seq<string>, covered: seq<string>) {
    exists j :: 0 <= j < |changedFiles| && BaseName(changedFiles[j]) in covered
  }

  /** The tests the selector picks: the keys whose covered files are touched. */
  function Impacted(changedFiles: seq<string>, testMap: Dict<seq<string>>): (tests: set<string>)
    ensures forall t :: t in tests ==> t in Keys(testMap)
    ensures changedFiles == [] ==> tests == {}
  {
    set k | 0 <= k < |testMap| && Touches(changedFiles, testMap[k].value) :: testMap[k].key
  }

  /** The keys of the first `k` entries that list `name` among their covered files, as the inner loop collects them. */
  function HitsUpTo(name: string, testMap: Dict<seq<string>>, k: nat): set<string>
    requires k <= |testMap|
  {
    if k == 0 then {}
    else HitsUpTo(name, testMap, k - 1) + (if name in testMap[k - 1].value then {testMap[k - 1].key} else {})
  }

  /** The tests the outer loop has collected after going through the first `i` names. */
  function ImpactedByNames(names: seq<string>, i: nat, testMap: Dict<seq<string>>): set<string>
    requires i <= |names|
  {
    if i == 0 then {}
    else ImpactedByNames(names, i - 1, testMap) + HitsUpTo(names[i - 1], testMap, |testMap|)
  }

  lemma {:induction false} HitsUpToMembership(name: string, testMap: Dict<seq<string>>, k: nat, t: string)
    requires k <= |testMap|
    ensures t in HitsUpTo(name, testMap, k) <==>
              exists k' :: 0 <= k' < k && name in testMap[k'].value && testMap[k'].key == t
  {
    if k > 0 {
      HitsUpToMembership(name, testMap, k - 1, t);
    }
  }

  lemma {:induction false} ImpactedByNamesMembership(names: seq<string>, i: nat, testMap: Dict<seq<string>>, t: string)
    requires i <= |names|
    ensures t in ImpactedByNames(names, i, testMap) <==>
              exists j, k :: 0 <= j < i && 0 <= k < |testMap| && names[j] in testMap[k].value && testMap[k].key == t
  {
    if i > 0 {
      ImpactedByNamesMembership(names, i - 1, testMap, t);
      HitsUpToMembership(names[i - 1], testMap, |testMap|, t);
    }
  }

  /** Collecting over the base names of the changed files gives exactly the impacted tests. */
  lemma ImpactedViaNames(changedFiles: seq<string>, names: seq<string>, testMap: Dict<seq<string>>)
    requires |names| == |changedFiles| && forall j :: 0 <= j < |names| ==> names[j] == BaseName(changedFiles[j])
    ensures Impacted(changedFiles, testMap) == ImpactedByNames(names, |names|, testMap)
  {
    forall t ensures t in Impacted(changedFiles, testMap) <==> t in ImpactedByNames(names, |names|, testMap) {
      ImpactedByNamesMembership(names, |names|, testMap, t);
      if t in Impacted(changedFiles, testMap) {
        var k :| 0 <= k < |testMap| && Touches(changedFiles, testMap[k].value) && testMap[k].key == t;
        var j :| 0 <= j < |changedFiles| && BaseName(changedFiles[j]) in testMap[k].value;
        assert names[j] in testMap[k].value;
      }
      if t in ImpactedByNames(names, |names|, testMap) {
        var j, k :| 0 <= j < |names| && 0 <= k < |testMap| && names[j] in testMap[k].value && testMap[k].key == t;
        assert Touches(changedFiles, testMap[k].value);
      }
    }
  }

  /** `[os.path.basename(f) for f in files]` */
  function BaseNames(files: seq<string>): (names: seq<string>)
    ensures |names| == |files| && forall j :: 0 <= j < |files| ==> names[j] == BaseName(files[j])
    ensures forall j :: 0 <= j < |names| ==> '/' !in names[j] && |names[j]| <= |files[j]|
  {
    seq(|files|, j requires 0 <= j < |files| => BaseName(files[j]))
  }

  /** The inner loop of `select_tests`: add every test whose covered files list `name`. */
  method AddCoveringTests(impactedTests: set<string>, name: string, testMap: Dict<seq<string>>)
    returns (result: set<string>)
    ensures result == impactedTests + HitsUpTo(name, testMap, |testMap|)
  {
    result := impactedTests;
    var k := 0;
    while k < |testMap|
      invariant 0 <= k <= |testMap|
      invariant result == impactedTests + HitsUpTo(name, testMap, k)
    {
      if name in testMap[k].value {
        result := result + {testMap[k].key};
      }
      k := k + 1;
    }
  }

  /** `select_tests(changed_files, dependency_graph, test_map)` */
  method SelectTests(changedFiles: seq<string>, dependencyGraph: Dict<seq<string>>, testMap: Dict<seq<string>>)
    returns (tests: seq<string>)
    ensures Distinct(tests)
    ensures forall t :: t in tests <==> t in Impacted(changedFiles, testMap)
  {
    var impactedTests: set<string> := {};
    var names := BaseNames(changedFiles);
    var i := 0;
    while i < |names|
      invariant 0 <= i <= |names|
      invariant impactedTests == ImpactedByNames(names, i, testMap)
    {
      impactedTests := AddCoveringTests(impactedTests, names[i], testMap);
      i := i + 1;
    }
    ImpactedViaNames(changedFiles, names, testMap);
    tests := SetToSeq(impactedTests);
  }

  /** In a well-formed map: `t` is selected iff it is a key and some changed base name is in `test_map[t]`. */
  lemma ImpactedByLookup(changedFiles: seq<string>, testMap: Dict<seq<string>>, t: string)
    requires WellFormed(testMap)
    ensures t in Impacted(changedFiles, testMap) <==>
              Get(testMap, t).Some? && Touches(changedFiles, Get(testMap, t).value)
  {
    if t in Impacted(changedFiles, testMap) {
      var k :| 0 <= k < |testMap| && Touches(changedFiles, testMap[k].value) && testMap[k].key == t;
      GetFindsEntry(testMap, k);
    }
    if Get(testMap, t).Some? && Touches(changedFiles, Get(testMap, t).value) {
      var k :| 0 <= k < |testMap| && testMap[k] == Entry(t, Get(testMap, t).value);
    }
  }

  /** Adding changed files never removes a selected test. */
  lemma ImpactedMonotone(changedFiles: seq<string>, more: seq<string>, testMap: Dict<seq<string>>)
    ensures Impacted(changedFiles, testMap) <= Impacted(changedFiles + more, testMap)
  {
    forall t | t in Impacted(changedFiles, testMap) ensures t in Impacted(changedFiles + more, testMap) {
      var k :| 0 <= k < |testMap| && Touches(changedFiles, testMap[k].value) && testMap[k].key == t;
      var j :| 0 <= j < |changedFiles| && BaseName(changedFiles[j]) in testMap[k].value;
      assert (changedFiles + more)[j] == changedFiles[j];
      assert Touches(changedFiles + more, testMap[k].value);
    }
  }

  /** Moving a changed file to another directory does not change the selection. */
  lemma ImpactedIgnoresDirectories(changedFiles: seq<string>, j: nat, dir: string, testMap: Dict<seq<string>>)
    requires j < |changedFiles|
    ensures Impacted(changedFiles[j := dir + "/" + BaseName(changedFiles[j])], testMap) == Impacted(changedFiles, testMap)
  {
    var moved := changedFiles[j := dir + "/" + BaseName(changedFiles[j])];
    forall i | 0 <= i < |moved| ensures BaseName(moved[i]) == BaseName(changedFiles[i]) {
      if i == j {
        BaseNameIgnoresDirectory(dir, BaseName(changedFiles[j]));
        BaseNameIdempotent(changedFiles[j]);
      }
    }
    SameBaseNamesSameSelection(moved, changedFiles, testMap);
  }

  /** The selection depends on the changed files only through their base names. */
  lemma SameBaseNamesSameSelection(a: seq<string>, b: seq<string>, testMap: Dict<seq<string>>)
    requires |a| == |b| && forall i :: 0 <= i < |a| ==> BaseName(a[i]) == BaseName(b[i])
    ensures Impacted(a, testMap) == Impacted(b, testMap)
  {
    forall k | 0 <= k < |testMap| ensures Touches(a, testMap[k].value) == Touches(b, testMap[k].value) {
      if Touches(a, testMap[k].value) {
        var j :| 0 <= j < |a| && BaseName(a[j]) in testMap[k].value;
        assert BaseName(b[j]) in testMap[k].value;
      }
      if Touches(b, testMap[k].value) {
        var j :| 0 <= j < |b| && BaseName(b[j]) in testMap[k].value;
        assert BaseName(a[j]) in testMap[k].value;
      }
    }
  }

  /** The worked example: with `test_auth -> [auth.py]` and `test_calc -> [calculator.py]`, changing `src/auth.py` selects exactly `test_auth`. */
  lemma AuthExample()
    ensures Impacted(["src/auth.py"], [Entry("test_auth", ["auth.py"]), Entry("test_calc", ["calculator.py"])]) == {"test_auth"}
  {
    var testMap := [Entry("test_auth", ["auth.py"]), Entry("test_calc", ["calculator.py"])];
    var changed := ["src/auth.py"];
    assert changed[0] == "src" + "/" + "auth.py";
    BaseNameIgnoresDirectory("src", "auth.py");
    BaseNameOfPlainName("auth.py");
    assert Touches(changed, testMap[0].value);
    assert !Touches(changed, testMap[1].value);
  }
}
