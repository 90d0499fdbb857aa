/**
 * The handful of Python `str` operations the core relies on, over `string`
 * (`seq<char>`): prefix and suffix tests, the `in` substring test,
 * `os.path.basename` (POSIX), `str.replace(pat, "")`, ASCII `str.lower` and
 * `sep.join`.
 */
module Strings {

  /** `s.startswith(p)` */
  predicate StartsWith(s: string, p: string)
    ensures StartsWith(s, p) ==> |p| <= |s| && s == p + s[|p|..]
  {
    |p| <= |s| && s[..|p|] == p
  }

  /** `s.endswith(p)` */
  predicate EndsWith(s: string, p: string)
    ensures EndsWith(s, p) ==> |p| <= |s| && s == s[..|s| - |p|] + p
  {
    |p| <= |s| && s[|s| - |p|..] == p
  }

  /** `sub in s`: `sub` occurs at some position of `s`. */
  predicate Contains(s: string, sub: string)
    ensures Contains(s, sub) ==> |sub| <= |s|
    ensures sub == [] ==> Contains(s, sub)
    decreases |s|
  {
    StartsWith(s, sub) || (|s| > 0 && Contains(s[1..], sub))
  }

  lemma {:induction false} ContainsAt(s: string, sub: string, i: nat)
    requires i + |sub| <= |s| && s[i..i + |sub|] == sub
    ensures Contains(s, sub)
    decreases i
  {
    if i > 0 {
      assert s[1..][i - 1..i - 1 + |sub|] == s[i..i + |sub|];
      ContainsAt(s[1..], sub, i - 1);
    }
  }

  /** Every character of an occurring substring occurs in the string. */
  lemma {:induction false} ContainsCharacters(s: string, sub: string, c: char)
    requires Contains(s, sub) && c in sub
    ensures c in s
    decreases |s|
  {
    if StartsWith(s, sub) {
      assert c in s[..|sub|];
    } else {
      ContainsCharacters(s[1..], sub, c);
    }
  }

  /**
   * `os.path.basename(p)` on POSIX: everything after the last '/', that is
   * the longest suffix of `p` without a '/'.
   */
  function BaseName(p: string): (name: string)
    ensures |name| <= |p| && '/' !in name
  {
    if p == [] || p[|p| - 1] == '/' then []
    else BaseName(p[..|p| - 1]) + [p[|p| - 1]]
  }

  /** The base name is a suffix of the path, holds no '/', and is preceded by a '/' unless it is the whole path. */
  lemma {:induction false} BaseNameIsLastComponent(p: string)
    ensures var b := BaseName(p);
            |b| <= |p| && b == p[|p| - |b|..] && '/' !in b && (|b| < |p| ==> p[|p| - |b| - 1] == '/')
  {
    if p != [] && p[|p| - 1] != '/' {
      var init, c := p[..|p| - 1], p[|p| - 1];
      BaseNameIsLastComponent(init);
      var b0 := BaseName(init);
      assert BaseName(p) == b0 + [c];
      var n := |b0| + 1;
      assert forall i :: 0 <= i < n ==> p[|p| - n..][i] == (b0 + [c])[i];
      assert forall ch :: ch in b0 + [c] ==> ch in b0 || ch == c;
    }
  }

  /** Whatever directory is put in front of a path, its base name stays the same. */
  lemma {:induction false} BaseNameIgnoresDirectory(dir: string, name: string)
    ensures BaseName(dir + "/" + name) == BaseName(name)
  {
    var p := dir + "/" + name;
    if name == [] {
      assert p[|p| - 1] == '/';
    } else {
      assert p[..|p| - 1] == dir + "/" + name[..|name| - 1];
      assert p[|p| - 1] == name[|name| - 1];
      BaseNameIgnoresDirectory(dir, name[..|name| - 1]);
    }
  }

  /** Taking the base name twice changes nothing. */
  lemma BaseNameIdempotent(p: string)
    ensures BaseName(BaseName(p)) == BaseName(p)
  {
    BaseNameIsLastComponent(p);
    BaseNameOfPlainName(BaseName(p));
  }

  /** A name without a '/' is its own base name. */
  lemma {:induction false} BaseNameOfPlainName(name: string)
    requires '/' !in name
    ensures BaseName(name) == name
  {
    if name != [] {
      assert name[|name| - 1] in name;
      BaseNameOfPlainName(name[..|name| - 1]);
    }
  }

  /** `s.replace(pat, "")`: every non-overlapping occurrence of `pat`, scanning left to right, is removed. */
  function StripAll(s: string, pat: string): (r: string)
    requires pat != []
    ensures |r| <= |s|
    ensures StartsWith(s, pat) ==> |r| <= |s| - |pat|
    decreases |s|
  {
    if |s| < |pat| then s
    else if s[..|pat|] == pat then StripAll(s[|pat|..], pat)
    else [s[0]] + StripAll(s[1..], pat)
  }

  /** A string without an occurrence of the pattern is left as it is. */
  lemma {:induction false} StripAllWithoutMatch(s: string, pat: string)
    requires pat != [] && !Contains(s, pat)
    ensures StripAll(s, pat) == s
    decreases |s|
  {
    if |s| >= |pat| {
      assert !StartsWith(s, pat);
      StripAllWithoutMatch(s[1..], pat);
    }
  }

  /** A leading occurrence of the pattern is removed, and the rest is processed as if alone. */
  lemma StripAllLeading(pat: string, rest: string)
    requires pat != []
    ensures StripAll(pat + rest, pat) == StripAll(rest, pat)
  {
    assert (pat + rest)[..|pat|] == pat;
    assert (pat + rest)[|pat|..] == rest;
  }

  function LowerChar(c: char): (r: char)
    ensures !('A' <= r <= 'Z')
    ensures 'A' <= c <= 'Z' ==> 'a' <= r <= 'z'
    ensures !('A' <= c <= 'Z') ==> r == c
  {
    if 'A' <= c <= 'Z' then (c as int + 32) as char else c
  }

  /** `s.lower()` restricted to ASCII letters. */
  function Lower(s: string): (r: string)
    ensures |r| == |s|
    ensures forall i :: 0 <= i < |r| ==> !('A' <= r[i] <= 'Z')
    ensures forall i :: 0 <= i < |r| ==> r[i] == s[i] || 'A' <= s[i] <= 'Z'
  {
    seq(|s|, i requires 0 <= i < |s| => LowerChar(s[i]))
  }

  /** Lower-casing leaves a string without upper-case ASCII letters as it is. */
  lemma LowerOfLowerCase(s: string)
    requires forall i :: 0 <= i < |s| ==> !('A' <= s[i] <= 'Z')
    ensures Lower(s) == s
  {
  }

  /** `sep.join(parts)` for a one-character separator. */
  function Join(parts: seq<string>, sep: char): (r: string)
    ensures parts == [] ==> r == []
    ensures parts != [] ==> |r| == TotalLength(parts) + |parts| - 1
  {
    if |parts| == 0 then []
    else if |parts| == 1 then parts[0]
    else parts[0] + [sep] + Join(parts[1..], sep)
  }

  /** The summed length of the strings in `parts`. */
  function TotalLength(parts: seq<string>): nat {
    if parts == [] then 0 else |parts[0]| + TotalLength(parts[1..])
  }

  /** A character that is neither the separator nor in any part does not occur in the join. */
  lemma {:induction false} JoinAvoids(parts: seq<string>, sep: char, c: char)
    requires c != sep && forall i :: 0 <= i < |parts| ==> c !in parts[i]
    ensures c !in Join(parts, sep)
  {
    if |parts| > 1 {
      JoinAvoids(parts[1..], sep, c);
    }
  }


}
