/**
 * `ci_engine/language_utils.py`: per-file impact rules, the test runners
 * recommended per language, and the sorted list of languages touched by a
 * change. The language classifier (`get_file_language`) is a parameter:
 * any function from path to language tag, with "unknown" for files it does
 * not recognise.
 */
module LanguageUtils {
  import opened Wrappers
  import opened Sequences
  import opened Strings
  import opened Ordering
  import opened ChangeDetector

  const Unknown: string := "unknown"

  /** The build and configuration file names that count as config files. */
  const ConfigNames: seq<string> := ["package.json", "pyproject.toml", "requirements.txt", "pom.xml", "build.gradle"]

  /** Path fragments that mark a file as shared code. */
  const SharedMarkers: seq<string> := ["utils", "common", "shared", "helpers"]

  datatype Impact = High | Low

  /** The record `analyze_file_impact` returns. */
  datatype FileImpact = FileImpact(
    language: string,
    filename: string,
    isTest: bool,
    isConfig: bool,
    isShared: bool,
    estimatedImpact: Impact)

  /** "test" occurs in the lower-cased file name. */
  predicate IsTestName(name: string) {
    Contains(Lower(name), "test")
  }

  /** The name is exactly one of the config names. */
  predicate IsConfigName(name: string) {
    name in ConfigNames
  }

  /** Some shared marker occurs in the lower-cased path. */
  predicate IsSharedPath(filepath: string) {
    exists i :: 0 <= i < |SharedMarkers| && Contains(Lower(filepath), SharedMarkers[i])
  }

  /** High for a test or config file, or for a path containing "utils"; low otherwise. */
  function EstimatedImpact(filepath: string): (impact: Impact)
    ensures impact == High ==> IsTestName(BaseName(filepath)) || IsConfigName(BaseName(filepath)) || IsSharedPath(filepath)
  {
    assert SharedMarkers[0] == "utils";
    var name := BaseName(filepath);
    if IsTestName(name) || IsConfigName(name) || Contains(Lower(filepath), "utils") then High else Low
  }

  /** `analyze_file_impact(filepath)` */
  function AnalyzeFileImpact(filepath: string, classify: string -> string): (r: FileImpact)
    ensures r.language == classify(filepath)
    ensures |r.filename| <= |filepath| && r.filename == filepath[|filepath| - |r.filename|..] && '/' !in r.filename
    ensures |r.filename| < |filepath| ==> filepath[|filepath| - |r.filename| - 1] == '/'
    ensures r.isTest <==> Contains(Lower(r.filename), "test")
    ensures r.isConfig <==> r.filename in ConfigNames
    ensures r.isShared <==> exists i :: 0 <= i < |SharedMarkers| && Contains(Lower(filepath), SharedMarkers[i])
    ensures r.estimatedImpact == High <==> r.isTest || r.isConfig || Contains(Lower(filepath), "utils")
    ensures r.estimatedImpact == High ==> r.isTest || r.isConfig || r.isShared
  {
    BaseNameIsLastComponent(filepath);
    var name := BaseName(filepath);
    FileImpact(classify(filepath), name, IsTestName(name), IsConfigName(name), IsSharedPath(filepath), EstimatedImpact(filepath))
  }

  /** The name-based flags see only the last path component: moving a file does not change them. */
  lemma NameFlagsIgnoreDirectory(dir: string, name: string, classify: string -> string)
    ensures var moved := AnalyzeFileImpact(dir + "/" + name, classify);
            var here := AnalyzeFileImpact(name, classify);
            moved.filename == here.filename && moved.isTest == here.isTest && moved.isConfig == here.isConfig
  {
    BaseNameIgnoresDirectory(dir, name);
  }

  lemma CommonIoBaseName()
    ensures BaseName("src/common/io.py") == "io.py"
  {
    assert "src/common/io.py" == "src/common" + "/" + "io.py";
    BaseNameIgnoresDirectory("src/common", "io.py");
    BaseNameOfPlainName("io.py");
  }

  lemma IoNameFlags()
    ensures !IsTestName("io.py") && !IsConfigName("io.py")
  {
    LowerOfLowerCase("io.py");
    if Contains("io.py", "test") {
      ContainsCharacters("io.py", "test", 't');
    }
  }

  lemma CommonIoShared()
    ensures IsSharedPath("src/common/io.py")
  {
    var path := "src/common/io.py";
    LowerOfLowerCase(path);
    assert Lower(path)[4..10] == "common";
    ContainsAt(Lower(path), "common", 4);
    assert SharedMarkers[1] == "common";
  }

  lemma CommonIoNotUtils()
    ensures !Contains(Lower("src/common/io.py"), "utils")
  {
    var path := "src/common/io.py";
    LowerOfLowerCase(path);
    if Contains(Lower(path), "utils") {
      ContainsCharacters(Lower(path), "utils", 't');
    }
  }

  /** Shared code found only through "common", "shared" or "helpers" is still estimated low. */
  lemma SharedButLow(classify: string -> string)
    ensures var r := AnalyzeFileImpact("src/common/io.py", classify);
            r.isShared && !r.isTest && !r.isConfig && r.estimatedImpact == Low
  {
    CommonIoBaseName();
    IoNameFlags();
    CommonIoShared();
    CommonIoNotUtils();
  }

  /** The config check compares names exactly: a recognised name is a config file. */
  lemma ConfigNameRecognised(classify: string -> string)
    ensures AnalyzeFileImpact("package.json", classify).isConfig
  {
    var p := "package.json";
    BaseNameOfPlainName(p);
    assert AnalyzeFileImpact(p, classify).isConfig == IsConfigName(p);
  }

  /** ... and the same name with different letter case is not. */
  lemma ConfigIsCaseSensitive(classify: string -> string)
    ensures !AnalyzeFileImpact("Package.json", classify).isConfig
  {
    var p := "Package.json";
    BaseNameOfPlainName(p);
    assert AnalyzeFileImpact(p, classify).isConfig == IsConfigName(p);
  }

  /** The test check is case-insensitive: an upper-case TEST in the name counts, and makes the impact high. */
  lemma TestIsCaseInsensitive(classify: string -> string)
    ensures AnalyzeFileImpact("TEST_main.py", classify).isTest
    ensures AnalyzeFileImpact("TEST_main.py", classify).estimatedImpact == High
  {
    var p := "TEST_main.py";
    BaseNameOfPlainName(p);
    ContainsAt(Lower(p), "test", 0);
  }

  /** The runners table of `get_language_test_runners`. */
  const Runners: map<string, seq<string>> := map[
    "python" := ["pytest", "unittest", "nose"],
    "javascript" := ["jest", "mocha", "jasmine"],
    "typescript" := ["jest", "mocha", "vitest"],
    "java" := ["junit", "testng"],
    "csharp" := ["nunit", "xunit", "mstest"],
    "go" := ["testing", "testify"],
    "rust" := ["cargo test"],
    "ruby" := ["rspec", "minitest"],
    "php" := ["phpunit", "pest"]
  ]

  /** The nine languages with recommended runners. */
  const RunnerLanguages: set<string> := {"python", "javascript", "typescript", "java", "csharp", "go", "rust", "ruby", "php"}

  /** `get_language_test_runners(language)` */
  function TestRunners(language: string): (runners: seq<string>)
    ensures runners != [] <==> language in RunnerLanguages
    ensures language == Unknown ==> runners == []
  {
    if language in Runners then Runners[language] else []
  }

  /** The runners the test suite expects for Python, JavaScript and Java. */
  lemma KnownRunners()
    ensures "pytest" in TestRunners("python") && "unittest" in TestRunners("python")
    ensures "jest" in TestRunners("javascript") && "mocha" in TestRunners("javascript")
    ensures "junit" in TestRunners("java")
    ensures TestRunners("tsx") == [] && TestRunners("cpp") == []
  {
  }

  /** The loop of `get_changed_languages` and its `sorted(list(languages))`. */
  method LanguagesOf(changedFiles: seq<string>, classify: string -> string) returns (languages: seq<string>)
    ensures StrictlySorted(languages)
    ensures forall l :: l in languages <==>
              l != Unknown && exists i :: 0 <= i < |changedFiles| && classify(changedFiles[i]) == l
  {
    var found: set<string> := {};
    for i := 0 to |changedFiles|
      invariant forall l :: l in found <==> l != Unknown && exists j :: 0 <= j < i && classify(changedFiles[j]) == l
    {
      var lang := classify(changedFiles[i]);
      if lang != Unknown {
        found := found + {lang};
      }
    }
    var unsorted := SetToSeq(found);
    SortDistinct(unsorted);
    languages := Sort(unsorted);
    forall l ensures l in languages <==> l in unsorted {
      assert l in languages <==> l in multiset(languages);
      assert l in unsorted <==> l in multiset(unsorted);
    }
  }

  /** `get_changed_languages()`: the languages of the detected change set; a detection failure propagates. */
  method GetChangedLanguages(git: GitOutputs, classify: string -> string)
    returns (r: Result<seq<string>, DetectionFailure>)
    ensures GetChangedFiles(git).Failure? ==> r == Failure(GetChangedFiles(git).error)
    ensures GetChangedFiles(git).Success? ==>
              r.Success? && StrictlySorted(r.value) &&
              forall l :: l in r.value <==>
                l != Unknown && exists i :: 0 <= i < |GetChangedFiles(git).value| && classify(GetChangedFiles(git).value[i]) == l
  {
    var detected := GetChangedFiles(git);
    if detected.Failure? {
      return Failure(detected.error);
    }
    var languages := LanguagesOf(detected.value, classify);
    return Success(languages);
  }
}
