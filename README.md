# HybirdCI selective-test pipeline in Dafny

This project models the `ci_engine/` core of HybirdCI, a CI helper that
decides which tests to run for a change and caches that decision. It covers
six parts:

- **Change detector** (`change_detector.dfy`). Three tiers of fallback over git: the diff against the previous commit, then the `.py` files of the last commit, then every tracked file.
- **Impact selector** (`ibst.dfy`). A test is selected when the base name of a changed file is one of the files the test covers.
- **Flat cache** (`cache_manager.dfy`). A class whose map field stands for the cache directory.
- **Test-map builder** (`test_mapper.dfy`). Builds the test map from a directory listing.
- **File-impact rules and language helpers** (`language_utils.dfy`).
- **Pipeline** (`pipeline_runner.dfy`). The cache key of a change set, and the pipeline itself in baseline or hybrid mode.

Shared models:

- A Python `dict` is an insertion-ordered list of entries (`pydict.dfy`). Iteration order, replacing a value in place and appending a new key behave as in Python.
- Python string ordering and `sorted` are in `ordering.dfy`. Small string and sequence helpers are in `strings.dfy` and `sequences.dfy`.

Whatever lies at the edges becomes an input:

- Each git invocation is either `Raised` or `Completed(lines)`, with its output already split into lines.
- MD5 is any function `digest`. Every property of the key holds for every such function.
- The elapsed time a run reports is a `real` parameter.
- The language classifier `get_file_language` is any function `classify` from path to language tag.

## Model

| member | source | states |
|---|---|---|
| ChangeDetector.GetChangedFiles | ci_engine/change_detector.py:4-33 | A non-empty diff is returned verbatim. An empty diff gives the `.py` lines of `git show`, in order and each as often as it occurs there. A raise in either of the first two invocations gives the `git ls-files` lines unfiltered, or a failure if that invocation raises too. |
| ChangeDetector.PythonFiles | ci_engine/change_detector.py:24 | The tier-2 result is a subsequence of the `git show` lines. Each line ending in ".py" occurs in it exactly as often as in the input, and no other line occurs. |
| ChangeDetector.TrackedFiles | ci_engine/change_detector.py:28-33 | Tier 3 fails iff `git ls-files` raises. Otherwise it returns all of that invocation's lines. |
| ChangeDetector.DiffDecidesAlone | ci_engine/change_detector.py:14-15 | Once the diff is non-empty, the `git show` and `git ls-files` outputs cannot change the result. |
| ChangeDetector.FailureOnlyFromListing | ci_engine/change_detector.py:26-33 | A failure means tier 3 was reached and `git ls-files` raised. |
| Ibst.BaseNames | ci_engine/ibst.py:7 | The comprehension keeps one name per changed file, in order; each is that file's base name, holds no '/' and is no longer than the path. |
| Ibst.SelectTests | ci_engine/ibst.py:3-14 | The result has no duplicates. A test is in it iff some changed file's base name is in that test's covered list. The dependency graph plays no part. |
| Ibst.AddCoveringTests | ci_engine/ibst.py:10-12 | The inner loop adds exactly the keys whose covered list holds the name. |
| Ibst.ImpactedViaNames | ci_engine/ibst.py:7-12 | Looping over the base names collects exactly the impacted tests. |
| Ibst.ImpactedByLookup | ci_engine/ibst.py:10-12 | In a dict with distinct keys, `t` is selected iff `t` is a key and a changed base name is in `test_map[t]`. |
| Ibst.Impacted | ci_engine/ibst.py:9-12 | Every selected test is a key of the test map. An empty change list selects nothing. |
| Ibst.ImpactedMonotone | ci_engine/ibst.py:9-12 | Adding changed files never removes a selected test. |
| Ibst.ImpactedIgnoresDirectories | ci_engine/ibst.py:7 | Moving one changed file to another directory leaves the selection unchanged. |
| Ibst.SameBaseNamesSameSelection | ci_engine/ibst.py:7 | Two change lists with the same base names, position by position, select the same tests. |
| Ibst.AuthExample | ci_engine/ibst.py:3-14 | With `test_auth -> [auth.py]` and `test_calc -> [calculator.py]`, changing `src/auth.py` selects exactly `test_auth`. |
| CacheManager.CacheStore.Load | ci_engine/cache_manager.py:11-16 | Returns Some iff the key has an entry, and then that entry's value. Before the directory exists it returns None. The store is not modified. |
| CacheManager.CacheStore.Save | ci_engine/cache_manager.py:18-21 | Creates the directory, or accepts an existing one. Writes the entry, replacing any earlier one, and leaves every other key unchanged. |
| CacheManager.CacheStore.constructor | ci_engine/cache_manager.py:5 | A store whose directory does not exist yet holds no entries. |
| CacheManager.SaveThenLoad | ci_engine/cache_manager.py:11-21 | Loading a key just saved returns the saved value. |
| CacheManager.SaveTwiceThenLoad | ci_engine/cache_manager.py:18-21 | A second save under the same key overwrites the first. |
| CacheManager.LoadFromFreshStore | ci_engine/cache_manager.py:12-16 | Loading from a store where nothing has been saved returns None. |
| TestMapper.GenerateTestMap | ci_engine/test_mapper.py:3-11 | Keys are distinct. A name is a key iff it is in the listing, starts with "test_" and ends with ".py". Each value is the one-element list of that name with every "test_" removed. For a listing of distinct names, the keys are the matching names in listing order. |
| TestMapper.AddTestFile | ci_engine/test_mapper.py:7-9 | Assigning a matching name keeps every fact the loop maintains. |
| TestMapper.SkipName | ci_engine/test_mapper.py:7 | A name that does not match leaves the map as it was. |
| TestMapper.TestFileNamesMembership | ci_engine/test_mapper.py:6-7 | The kept names are exactly the matching names of the listing. |
| TestMapper.EntryCountOfDistinctListing | ci_engine/test_mapper.py:4-11 | For a listing of distinct names, the number of entries equals the number of matching names. |
| TestMapper.SourceName | ci_engine/test_mapper.py:8 | For a test file name, the source name is at least the five characters of the leading "test_" shorter. |
| Strings.StripAll | ci_engine/test_mapper.py:8 | Removing occurrences never lengthens the string. A leading occurrence shortens it by at least the pattern's length. |
| TestMapper.SourceNameOfPlainTest | ci_engine/test_mapper.py:8 | A name "test_" + rest, where rest holds no "test_", maps to rest. |
| TestMapper.SourceNameRemovesRepeatedPrefix | ci_engine/test_mapper.py:8 | Every occurrence of "test_" is removed, so "test_test_x" loses both. |
| TestMapper.SourceNameOfAuthTest | ci_engine/test_mapper.py:8 | "test_auth.py" maps to "auth.py". |
| LanguageUtils.AnalyzeFileImpact | ci_engine/language_utils.py:50-68 | The language is the classifier's tag. The filename is exactly `BaseName` of the path: a suffix without '/' that is either the whole path or preceded by a '/'. The test flag holds iff "test" occurs in the lower-cased filename. The config flag holds iff the filename is exactly one of the five config names. The shared flag holds iff the lower-cased path contains one of the four markers. The estimate is high iff the test or config flag holds or the lower-cased path contains "utils". A high estimate always comes with one of the three flags. |
| LanguageUtils.EstimatedImpact | ci_engine/language_utils.py:61-65 | A high estimate implies a test name, a config name or a shared path. |
| LanguageUtils.NameFlagsIgnoreDirectory | ci_engine/language_utils.py:53-59 | The filename, test and config flags depend only on the base name. |
| LanguageUtils.SharedButLow | ci_engine/language_utils.py:60-65 | `src/common/io.py` is shared, not a test, not config, and still estimated low. |
| LanguageUtils.ConfigNameRecognised | ci_engine/language_utils.py:59 | "package.json" is a config file. |
| LanguageUtils.ConfigIsCaseSensitive | ci_engine/language_utils.py:59 | "Package.json" is not a config file. |
| LanguageUtils.TestIsCaseInsensitive | ci_engine/language_utils.py:58-65 | "TEST_main.py" is a test file and is estimated high. |
| LanguageUtils.TestRunners | ci_engine/language_utils.py:70-83 | The list is non-empty iff the language is one of the nine in the table. "unknown" gets `[]`. |
| LanguageUtils.KnownRunners | ci_engine/language_utils.py:72-83 | The table gives pytest and unittest for python, jest and mocha for javascript, and junit for java. Unlisted languages get nothing. |
| LanguageUtils.LanguagesOf | ci_engine/language_utils.py:32-39 | The result is strictly sorted. A language is in it iff it is not "unknown" and classifies some changed file. |
| LanguageUtils.GetChangedLanguages | ci_engine/language_utils.py:29-39 | A detection failure propagates. Otherwise the result is the strictly sorted languages of the detected change set. |
| PipelineRunner.NormalizeSeparators | ci_engine/pipeline_runner.py:61 | A normalised path has the same length and holds no backslash. |
| PipelineRunner.NormalizeAll | ci_engine/pipeline_runner.py:61 | The comprehension keeps the number of paths; each normalised path has the length of its original and holds no backslash. |
| PipelineRunner.KeyMaterial | ci_engine/pipeline_runner.py:61-62 | The hashed string holds no backslash. An empty change set gives the empty string. |
| PipelineRunner.CacheKey | ci_engine/pipeline_runner.py:60-63 | The key of an empty change set is the hash of the empty string. |
| PipelineRunner.KeyDependsOnNormalizedMultiset | ci_engine/pipeline_runner.py:60-63 | Two change sets whose normalised paths form the same multiset get the same key. |
| PipelineRunner.KeyIgnoresOrder | ci_engine/pipeline_runner.py:60-63 | Any permutation of the change set gets the same key. |
| PipelineRunner.KeyIgnoresSeparatorStyle | ci_engine/pipeline_runner.py:61 | Turning every '\' into '/' beforehand does not change the key. |
| PipelineRunner.NormalizeIdempotent | ci_engine/pipeline_runner.py:61 | Normalising a path twice is the same as normalising it once. |
| PipelineRunner.KeyExample | ci_engine/pipeline_runner.py:60-63 | `[src/a.py, src/b.py]` and `[src\b.py, src\a.py]` share a key. |
| PipelineRunner.RepeatedPathChangesKeyMaterial | ci_engine/pipeline_runner.py:61-63 | The key does not deduplicate. Appending any path, even a repeated one, to a non-empty change set changes the hashed string. |
| PipelineRunner.CollectCoveredFiles | ci_engine/pipeline_runner.py:27-29 | The safety-net loop builds the concatenation of every covered-file list, in map order. |
| PipelineRunner.AllCoveredFiles | ci_engine/pipeline_runner.py:26-29 | A file is in the safety net iff some test covers it. |
| PipelineRunner.WorkingChangeSet | ci_engine/pipeline_runner.py:23-29 | A non-empty detection is used as it is. An empty one is replaced by a list holding exactly the files some test covers. |
| PipelineRunner.SafetyNetSelectsCoveringTests | ci_engine/pipeline_runner.py:26-43 | With nothing detected, every test covering a file name without '/' is selected. |
| PipelineRunner.RunPipeline | ci_engine/pipeline_runner.py:6-56 | The store stays consistent: no entries without a directory. Baseline returns every key with no hit and touches neither detector nor cache. A detection failure propagates. A hit returns the stored tests and time as a hybrid hit and writes nothing. A miss returns the selected tests with no hit and stores that result under the key, changing no other key. |
| PipelineRunner.RunTwice | ci_engine/pipeline_runner.py:32-56 | Two hybrid runs over the same detection, starting from a cache without the key, give a miss and then a hit with the same tests and time. |
| PyDict.Keys | ci_engine/pipeline_runner.py:11 | `test_map.keys()` lists the keys in entry order, one per entry. |
| PyDict.Values | ci_engine/pipeline_runner.py:28 | `test_map.values()` lists the values in entry order, one per entry. |
| PyDict.Get | ci_engine/ibst.py:10-12 | The lookup `test_map[t]` that the selection property is stated with: it finds a value iff `t` is a key, and that value belongs to an entry of `t`. |
| PyDict.GetFindsEntry | ci_engine/ibst.py:10-12 | In a dict with distinct keys, the `test_map[t]` lookup of each entry's key gives the value that `items()` pairs it with. |
| PyDict.Put | ci_engine/test_mapper.py:9 | After `d[k] = v`, the entry `(k, v)` is present and every other entry was already in `d`. |
| PyDict.PutKeys | ci_engine/test_mapper.py:9 | `d[k] = v` keeps the keys in order and appends `k` when it is new. |
| PyDict.PutKeepsWellFormed | ci_engine/test_mapper.py:9 | Assignment keeps every key distinct. |
| PyDict.PutThenGet | ci_engine/test_mapper.py:9 | After `d[k] = v`, looking up `k` gives `v` and every other key reads as before. |
| Sequences.SetToSeq | ci_engine/ibst.py:14 | `list(s)` holds every element of the set exactly once. |
| Ordering.LessEq | ci_engine/pipeline_runner.py:61 | Python's `<=` on strings: a prefix of a string sorts before it, and only the empty string sorts before the empty string. |
| Ordering.Sort | ci_engine/pipeline_runner.py:61 | `sorted` returns a sorted permutation of its input. |
| Ordering.SortedUnique | ci_engine/pipeline_runner.py:61 | Two sorted lists with the same multiset of elements are equal, so `sorted` depends only on the multiset. |
| Ordering.SortDistinct | ci_engine/language_utils.py:39 | Sorting a list without repeats gives a strictly sorted list. |
| Strings.BaseName | ci_engine/ibst.py:7 | The base name is no longer than the path and holds no '/'. |
| Strings.BaseNameIsLastComponent | ci_engine/ibst.py:7 | The base name is the suffix of the path after its last '/'. |
| Strings.BaseNameIgnoresDirectory | ci_engine/ibst.py:7 | Prefixing a directory does not change the base name. |
| Strings.BaseNameIdempotent | ci_engine/ibst.py:7 | Taking the base name of a base name changes nothing. |
| Strings.StartsWith | ci_engine/test_mapper.py:7 | `s.startswith(p)` holds only when `s` is `p` followed by the rest of `s`. |
| Strings.EndsWith | ci_engine/change_detector.py:24 | `s.endswith(p)` holds only when `s` is the rest of `s` followed by `p`. |
| Strings.Contains | ci_engine/language_utils.py:58-60 | `sub in s` needs `sub` no longer than `s`, and the empty string occurs in every string. |
| Strings.LowerChar | ci_engine/language_utils.py:58-60 | Lower-casing a character leaves no upper-case ASCII letter, maps each upper-case letter to a lower-case one and leaves every other character alone. |
| Strings.Lower | ci_engine/language_utils.py:58-60 | `str.lower` keeps the length, leaves no upper-case ASCII letter and changes only upper-case letters. |
| Strings.Join | ci_engine/pipeline_runner.py:62 | Joining no parts gives ""; joining n parts gives their total length plus n - 1 separators. |

## Left out

- `hash_dependencies` (ci_engine/cache_manager.py:7-9): it reads a file and hashes it, and no core function calls it.
- MD5 is left out: `digest` is any function from string to string. Whether two different change sets collide is therefore not modelled.
- The clock and `time.sleep` are left out: the reported time is a parameter. Floating point is not modelled.
- Pickle, file names under `.ci_cache` and I/O errors are left out: the store holds values as they were saved.
- `subprocess.run` and `splitlines` are left out: each git invocation is given as raised or completed with its lines.
- `get_file_language` and `LANGUAGE_EXTENSIONS` are not part of this model. `language_utils.py` imports them from `cache_manager.py`, but the `cache_manager.py` modelled here does not define them, so the classifier is any function.
- The language-aware cache functions and `get_changed_files_by_language` are not part of this model. They are not defined in the modelled files.
- `get_language_stats` and `get_language_file_count` (ci_engine/language_utils.py:10-27, 41-48) are left out: they walk the filesystem.
- `format_language_report` (ci_engine/language_utils.py:85-98) is left out: it is float percentages and text padding.
- `ci_engine/dependency_graph.py` is left out: it parses Python source, and the selector never reads the graph it builds.
- The dashboard, the demo and setup scripts and the experiment runner are left out: they are presentation and environment checks.
- LanguageUtils.AnalyzeFileImpact: `str.lower` is modelled for ASCII letters only. `Path(p).name` is modelled as the text after the last '/', without the normalisation `pathlib` applies to trailing separators and "." components.
- Ibst.SelectTests: `os.path.basename` is modelled for '/' separators only, as on POSIX. The order of the returned list is left unspecified, as in Python.
- TestMapper.GenerateTestMap: `src_dir` is accepted and never read, as in the source. `os.listdir` is given as a list, and a missing directory is not modelled.
- PipelineRunner.RunPipeline: the cache check `if cached:` is modelled as "the key has an entry". Every stored result is a non-empty dict, so it is always truthy.
- ChangeDetector.GetChangedFiles: a git command that exits non-zero (for example outside a repository) does not raise, because `check=True` is not passed. It reaches tier 2 with empty output, not tier 3. The `# Case 3: Git edge cases` comment at ci_engine/change_detector.py:27 suggests such failures were meant to reach `git ls-files`; the model follows the code.
