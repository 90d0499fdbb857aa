/**
 * `ci_engine/test_mapper.py`: the test map built from the names in the test
 * directory. A name that starts with "test_" and ends with ".py" becomes a
 * key, mapped to a one-element list: the name with every "test_" removed.
 */
module TestMapper {
  import opened Sequences
  import opened Strings
  import opened PyDict

  /** The names `generate_test_map` keeps. */
  predicate IsTestFileName(name: string) {
    StartsWith(name, "test_") && EndsWith(name, ".py")
  }

  /** `test_file.replace("test_", "")`: the source file a test file is taken to cover. */
  function SourceName(testFile: string): (src: string)
    ensures IsTestFileName(testFile) ==> |src| <= |testFile| - 5
  {
    StripAll(testFile, "test_")
  }

  /** The kept names of a listing, in listing order. */
  function TestFileNames(listing: seq<string>): seq<string> {
    if listing == [] then []
    else
      TestFileNames(listing[..|listing| - 1]) +
      (if IsTestFileName(listing[|listing| - 1]) then [listing[|listing| - 1]] else [])
  }

  lemma {:induction false} TestFileNamesMembership(listing: seq<string>, name: string)
    ensures name in TestFileNames(listing) <==> name in listing && IsTestFileName(name)
  {
    if listing != [] {
      var init := listing[..|listing| - 1];
      TestFileNamesMembership(init, name);
      assert listing == init + [listing[|listing| - 1]];
    }
  }

  /** What the test map holds once the names in `seen` have been visited. */
  ghost predicate MapsNames(testMap: Dict<seq<string>>, seen: seq<string>) {
    && WellFormed(testMap)
    && (forall name :: name in Keys(testMap) <==> name in seen && IsTestFileName(name))
    && (forall e :: e in testMap ==> e.value == [SourceName(e.key)])
    && (Distinct(seen) ==> Keys(testMap) == TestFileNames(seen))
  }

  /** One step of the loop: a kept name is assigned its source name. */
  lemma AddTestFile(testMap: Dict<seq<string>>, seen: seq<string>, name: string)
    requires MapsNames(testMap, seen) && IsTestFileName(name)
    ensures MapsNames(Put(testMap, name, [SourceName(name)]), seen + [name])
  {
    var next := Put(testMap, name, [SourceName(name)]);
    PutKeys(testMap, name, [SourceName(name)]);
    PutKeepsWellFormed(testMap, name, [SourceName(name)]);
    assert (seen + [name])[..|seen|] == seen;
    DistinctSnoc(seen, name);
  }

  /** One step of the loop: any other name leaves the map as it is. */
  lemma SkipName(testMap: Dict<seq<string>>, seen: seq<string>, name: string)
    requires MapsNames(testMap, seen) && !IsTestFileName(name)
    ensures MapsNames(testMap, seen + [name])
  {
    assert (seen + [name])[..|seen|] == seen;
    DistinctSnoc(seen, name);
  }

  /** `generate_test_map(test_dir, src_dir)` with the directory listing of `test_dir` given; `src_dir` is not used. */
  method GenerateTestMap(listing: seq<string>, srcDir: string) returns (testMap: Dict<seq<string>>)
    ensures WellFormed(testMap)
    ensures forall name :: name in Keys(testMap) <==> name in listing && IsTestFileName(name)
    ensures forall e :: e in testMap ==> e.value == [SourceName(e.key)]
    ensures Distinct(listing) ==> Keys(testMap) == TestFileNames(listing)
  {
    testMap := [];
    var i := 0;
    while i < |listing|
      invariant 0 <= i <= |listing|
      invariant MapsNames(testMap, listing[..i])
    {
      var testFile := listing[i];
      assert listing[..i + 1] == listing[..i] + [testFile];
      if StartsWith(testFile, "test_") && EndsWith(testFile, ".py") {
        var srcFile := StripAll(testFile, "test_");
        AddTestFile(testMap, listing[..i], testFile);
        testMap := Put(testMap, testFile, [srcFile]);
      } else {
        SkipName(testMap, listing[..i], testFile);
      }
      i := i + 1;
    }
    assert listing[..i] == listing;
  }

  /** For a listing of distinct names, there is one entry per matching name. */
  lemma {:induction false} EntryCountOfDistinctListing(listing: seq<string>)
    requires Distinct(listing)
    ensures |TestFileNames(listing)| == |set name | name in listing && IsTestFileName(name)|
  {
    var names := TestFileNames(listing);
    DistinctTestFileNames(listing);
    forall name ensures name in names <==> name in listing && IsTestFileName(name) {
      TestFileNamesMembership(listing, name);
    }
    DistinctCardinality(names);
    assert (set name | name in names) == (set name | name in listing && IsTestFileName(name));
  }

  lemma {:induction false} DistinctTestFileNames(listing: seq<string>)
    requires Distinct(listing)
    ensures Distinct(TestFileNames(listing))
  {
    if listing != [] {
      var init := listing[..|listing| - 1];
      var last := listing[|listing| - 1];
      DistinctTestFileNames(init);
      TestFileNamesMembership(init, last);
      assert last !in init;
    }
  }

  lemma {:induction false} DistinctCardinality(s: seq<string>)
    requires Distinct(s)
    ensures |set x | x in s| == |s|
  {
    if s != [] {
      var init := s[..|s| - 1];
      DistinctCardinality(init);
      assert s == init + [s[|s| - 1]];
      assert (set x | x in s) == (set x | x in init) + {s[|s| - 1]};
    }
  }

  /** A test file whose name has "test_" only as its prefix covers the rest of its name: test_auth.py covers auth.py. */
  lemma SourceNameOfPlainTest(rest: string)
    requires !Contains(rest, "test_")
    ensures SourceName("test_" + rest) == rest
  {
    StripAllLeading("test_", rest);
    StripAllWithoutMatch(rest, "test_");
  }

  /** `str.replace` removes every occurrence, not just the prefix: test_test_x.py covers x.py. */
  lemma SourceNameRemovesRepeatedPrefix(rest: string)
    requires !Contains(rest, "test_")
    ensures SourceName("test_" + ("test_" + rest)) == rest
  {
    StripAllLeading("test_", "test_" + rest);
    SourceNameOfPlainTest(rest);
  }

  lemma SourceNameOfAuthTest()
    ensures SourceName("test_auth.py") == "auth.py"
  {
    assert "test_auth.py" == "test_" + "auth.py";
    if Contains("auth.py", "test_") {
      ContainsCharacters("auth.py", "test_", '_');
    }
    SourceNameOfPlainTest("auth.py");
  }
}
