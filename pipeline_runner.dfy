/**
 * `ci_engine/pipeline_runner.py`: the cache key of a change set, and the
 * pipeline that runs either every test (baseline) or the tests selected for
 * the detected change set, reusing a cached selection for a change set it
 * has seen before (hybrid).
 *
 * Clock readings and sleeps are not modelled: the elapsed time a run would
 * report is a parameter, copied into the result. MD5 is a parameter
 * `digest` as well; every property below holds whatever that function is.
 */
module PipelineRunner {
  import opened Wrappers
  import opened Sequences
  import opened Strings
  import opened Ordering
  import opened PyDict
  import opened ChangeDetector
  import opened Ibst
  import opened CacheManager

  // ---------- cache key ----------

  /** `f.replace("\\", "/")` */
  function NormalizeSeparators(path: string): (r: string)
    ensures |r| == |path| && '\\' !in r
  {
    seq(|path|, i requires 0 <= i < |path| => if path[i] == '\\' then '/' else path[i])
  }

  /** The comprehension `[f.replace("\\", "/") for f in files]`. */
  function NormalizeAll(files: seq<string>): (r: seq<string>)
    ensures |r| == |files|
    ensures forall i :: 0 <= i < |r| ==> |r[i]| == |files[i]| && '\\' !in r[i]
  {
    var r := Map(NormalizeSeparators, files);
    assert forall i :: 0 <= i < |r| ==> r[i] == NormalizeSeparators(files[i]);
    r
  }

  /** Every path of a sorted, normalised change set is free of '\'. */
  lemma SortedNormalizedAvoidBackslash(files: seq<string>)
    ensures forall i :: 0 <= i < |Sort(NormalizeAll(files))| ==> '\\' !in Sort(NormalizeAll(files))[i]
  {
    var normalized := NormalizeAll(files);
    var sorted := Sort(normalized);
    forall i | 0 <= i < |sorted| ensures '\\' !in sorted[i] {
      assert sorted[i] in multiset(normalized);
      var j :| 0 <= j < |normalized| && normalized[j] == sorted[i];
      assert normalized[j] == NormalizeSeparators(files[j]);
    }
  }

  /** The string that is hashed: the normalised paths, sorted, joined with '|'. No '\' survives into it. */
  function KeyMaterial(files: seq<string>): (m: string)
    ensures '\\' !in m
    ensures files == [] ==> m == []
  {
    SortedNormalizedAvoidBackslash(files);
    JoinAvoids(Sort(NormalizeAll(files)), '|', '\\');
    Join(Sort(NormalizeAll(files)), '|')
  }

  /** `generate_cache_key(files)`: an empty change set hashes the empty string. */
  function CacheKey(files: seq<string>, digest: string -> string): (key: string)
    ensures files == [] ==> key == digest([])
  {
    digest(KeyMaterial(files))
  }

  lemma NormalizeIdempotent(path: string)
    ensures NormalizeSeparators(NormalizeSeparators(path)) == NormalizeSeparators(path)
  {
  }

  /** The key depends only on the multiset of normalised paths. */
  lemma KeyDependsOnNormalizedMultiset(a: seq<string>, b: seq<string>, digest: string -> string)
    requires multiset(NormalizeAll(a)) == multiset(NormalizeAll(b))
    ensures CacheKey(a, digest) == CacheKey(b, digest)
  {
    SortIgnoresOrder(NormalizeAll(a), NormalizeAll(b));
  }

  /** Reordering the change set does not change the key. */
  lemma KeyIgnoresOrder(a: seq<string>, b: seq<string>, digest: string -> string)
    requires multiset(a) == multiset(b)
    ensures CacheKey(a, digest) == CacheKey(b, digest)
  {
    MapPermutation(NormalizeSeparators, a, b);
    KeyDependsOnNormalizedMultiset(a, b, digest);
  }

  /** Writing any '\' of the change set as '/' does not change the key. */
  lemma KeyIgnoresSeparatorStyle(files: seq<string>, digest: string -> string)
    ensures CacheKey(NormalizeAll(files), digest) == CacheKey(files, digest)
  {
    forall i | 0 <= i < |files| ensures NormalizeAll(NormalizeAll(files))[i] == NormalizeAll(files)[i] {
      NormalizeIdempotent(files[i]);
    }
    assert NormalizeAll(NormalizeAll(files)) == NormalizeAll(files);
  }

  /** The example pair: a/b with '/' and b/a with '\' share a key. */
  lemma KeyExample(digest: string -> string)
    ensures CacheKey(["src/a.py", "src/b.py"], digest) == CacheKey(["src\\b.py", "src\\a.py"], digest)
  {
    var forward := ["src/a.py", "src/b.py"];
    var backward := ["src\\b.py", "src\\a.py"];
    assert NormalizeSeparators(backward[0]) == forward[1];
    assert NormalizeSeparators(backward[1]) == forward[0];
    assert NormalizeSeparators(forward[0]) == forward[0];
    assert NormalizeSeparators(forward[1]) == forward[1];
    assert NormalizeAll(backward) == [forward[1], forward[0]];
    assert NormalizeAll(forward) == forward;
    assert multiset(NormalizeAll(backward)) == multiset(NormalizeAll(forward));
    KeyDependsOnNormalizedMultiset(forward, backward, digest);
  }

  lemma {:induction false} InsertTotalLength(x: string, s: seq<string>)
    requires Sorted(s)
    ensures TotalLength(Insert(x, s)) == |x| + TotalLength(s)
  {
    if s != [] && !LessEq(x, s[0]) {
      InsertTotalLength(x, s[1..]);
    }
  }

  lemma {:induction false} SortTotalLengthSum(s: seq<string>)
    ensures TotalLength(Sort(s)) == TotalLength(s)
  {
    if s != [] {
      SortTotalLengthSum(s[1..]);
      InsertTotalLength(s[0], Sort(s[1..]));
    }
  }

  lemma {:induction false} NormalizeAllTotalLength(s: seq<string>)
    ensures TotalLength(NormalizeAll(s)) == TotalLength(s)
  {
    if s != [] {
      NormalizeAllTotalLength(s[1..]);
      MapSplit(NormalizeSeparators, s, 0);
      assert NormalizeAll(s)[1..] == NormalizeAll(s[1..]);
    }
  }

  /**
   * The key is not computed over a set: adding a path, even one already
   * present, to a non-empty change set changes the hashed string.
   */
  lemma RepeatedPathChangesKeyMaterial(files: seq<string>, f: string)
    requires files != []
    ensures KeyMaterial(files + [f]) != KeyMaterial(files)
  {
    var longer := files + [f];
    SortTotalLength(NormalizeAll(files));
    SortTotalLength(NormalizeAll(longer));
    SortTotalLengthSum(NormalizeAll(files));
    SortTotalLengthSum(NormalizeAll(longer));
    NormalizeAllTotalLength(files);
    NormalizeAllTotalLength(longer);
    TotalLengthAppend(files, f);
  }

  lemma {:induction false} TotalLengthAppend(files: seq<string>, f: string)
    ensures TotalLength(files + [f]) == TotalLength(files) + |f|
  {
    if files != [] {
      assert (files + [f])[1..] == files[1..] + [f];
      TotalLengthAppend(files[1..], f);
    }
  }

  // ---------- pipeline ----------

  datatype Mode = Baseline | Hybrid

  /** The dict `run_pipeline` returns, and stores in the cache on a miss. */
  datatype PipelineResult = PipelineResult(tests: seq<string>, time: real, cacheHit: bool, mode: Mode)

  /**
   * Every covered file of the test map, list after list in map order: the
   * safety-net change set. It holds exactly the files some test covers.
   */
  function AllCoveredFiles(testMap: Dict<seq<string>>): (files: seq<string>)
    ensures forall f :: f in files <==> exists k :: 0 <= k < |testMap| && f in testMap[k].value
  {
    CoveredValuesMembership(testMap);
    Flatten(Values(testMap))
  }

  lemma CoveredValuesMembership(testMap: Dict<seq<string>>)
    ensures forall f :: f in Flatten(Values(testMap)) <==> exists k :: 0 <= k < |testMap| && f in testMap[k].value
  {
    forall f ensures f in Flatten(Values(testMap)) <==> exists k :: 0 <= k < |testMap| && f in testMap[k].value {
      FlattenMembership(Values(testMap), f);
      if exists k :: 0 <= k < |testMap| && f in testMap[k].value {
        var k :| 0 <= k < |testMap| && f in testMap[k].value;
        assert f in Values(testMap)[k];
      }
    }
  }

  /**
   * When nothing is detected, every test that covers a plain file name (one
   * without a '/', as the test-map builder produces) is selected.
   */
  lemma SafetyNetSelectsCoveringTests(testMap: Dict<seq<string>>, k: nat, f: string)
    requires k < |testMap| && f in testMap[k].value && '/' !in f
    ensures testMap[k].key in Impacted(WorkingChangeSet([], testMap), testMap)
  {
    var files := AllCoveredFiles(testMap);
    assert f in files;
    var j :| 0 <= j < |files| && files[j] == f;
    BaseNameOfPlainName(f);
    assert Touches(files, testMap[k].value);
  }

  /** The change set the hybrid mode works on: the detected one, or the safety net when nothing was detected. */
  function WorkingChangeSet(detected: seq<string>, testMap: Dict<seq<string>>): (files: seq<string>)
    ensures detected != [] ==> files == detected
    ensures detected == [] ==> forall f :: f in files <==> exists k :: 0 <= k < |testMap| && f in testMap[k].value
  {
    if detected == [] then AllCoveredFiles(testMap) else detected
  }

  /** The safety-net loop: extend an empty list with every value of the test map. */
  method CollectCoveredFiles(testMap: Dict<seq<string>>) returns (changedFiles: seq<string>)
    ensures changedFiles == AllCoveredFiles(testMap)
  {
    var values := Values(testMap);
    changedFiles := [];
    var i := 0;
    while i < |values|
      invariant 0 <= i <= |values|
      invariant changedFiles == Flatten(values[..i])
    {
      assert values[..i + 1][..i] == values[..i];
      changedFiles := changedFiles + values[i];
      i := i + 1;
    }
    assert values[..i] == values;
  }

  /** `run_pipeline(test_map, dependency_graph, baseline)`, with the git outputs, the hash and the elapsed time as inputs. */
  method RunPipeline(
    store: CacheStore<PipelineResult>,
    testMap: Dict<seq<string>>,
    dependencyGraph: Dict<seq<string>>,
    baseline: bool,
    git: GitOutputs,
    digest: string -> string,
    elapsed: real)
    returns (r: Result<PipelineResult, DetectionFailure>)
    requires store.Valid()
    modifies store
    ensures store.Valid()
    // Baseline: every test, no detection, no cache.
    ensures baseline ==>
              r == Success(PipelineResult(Keys(testMap), elapsed, false, Baseline)) && unchanged(store)
    // Hybrid, detection failed: the failure propagates before the cache is touched.
    ensures !baseline && GetChangedFiles(git).Failure? ==>
              r == Failure(GetChangedFiles(git).error) && unchanged(store)
    // Hybrid, cache hit: the stored tests and time, marked as a hit; nothing is written.
    ensures !baseline && GetChangedFiles(git).Success? ==>
              var key := CacheKey(WorkingChangeSet(GetChangedFiles(git).value, testMap), digest);
              key in old(store.entries) ==>
                r == Success(PipelineResult(old(store.entries)[key].tests, old(store.entries)[key].time, true, Hybrid)) &&
                unchanged(store)
    // Hybrid, cache miss: the selected tests, stored under the key; no other key changes.
    ensures !baseline && GetChangedFiles(git).Success? ==>
              var files := WorkingChangeSet(GetChangedFiles(git).value, testMap);
              var key := CacheKey(files, digest);
              key !in old(store.entries) ==>
                r.Success? && r.value.cacheHit == false && r.value.mode == Hybrid && r.value.time == elapsed &&
                Distinct(r.value.tests) &&
                (forall t :: t in r.value.tests <==> t in Impacted(files, testMap)) &&
                store.entries == old(store.entries)[key := r.value] && store.created
  {
    if baseline {
      return Success(PipelineResult(Keys(testMap), elapsed, false, Baseline));
    }
    var detected := GetChangedFiles(git);
    if detected.Failure? {
      return Failure(detected.error);
    }
    var changedFiles := detected.value;
    if changedFiles == [] {
      changedFiles := CollectCoveredFiles(testMap);
    }
    var cacheKey := CacheKey(changedFiles, digest);
    var cached := store.Load(cacheKey);
    if cached.Some? {
      return Success(PipelineResult(cached.value.tests, cached.value.time, true, Hybrid));
    }
    var selectedTests := SelectTests(changedFiles, dependencyGraph, testMap);
    var result := PipelineResult(selectedTests, elapsed, false, Hybrid);
    store.Save(cacheKey, result);
    return Success(result);
  }

  /** Two hybrid runs over the same detected change set, from a cache without its key: a miss, then a hit with the same tests. */
  method RunTwice(
    store: CacheStore<PipelineResult>,
    testMap: Dict<seq<string>>,
    dependencyGraph: Dict<seq<string>>,
    git: GitOutputs,
    digest: string -> string,
    firstElapsed: real,
    secondElapsed: real)
    returns (first: Result<PipelineResult, DetectionFailure>, second: Result<PipelineResult, DetectionFailure>)
    requires store.Valid()
    requires GetChangedFiles(git).Success?
    requires CacheKey(WorkingChangeSet(GetChangedFiles(git).value, testMap), digest) !in store.entries
    modifies store
    ensures first.Success? && second.Success?
    ensures !first.value.cacheHit && second.value.cacheHit
    ensures second.value.tests == first.value.tests && second.value.time == first.value.time
  {
    first := RunPipeline(store, testMap, dependencyGraph, false, git, digest, firstElapsed);
    second := RunPipeline(store, testMap, dependencyGraph, false, git, digest, secondElapsed);
  }
}
