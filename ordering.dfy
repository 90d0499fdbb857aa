/**
 * Python's ordering of `str` values (code point by code point, a proper
 * prefix first) and `sorted` on lists of strings, with the facts the cache
 * key and the language list rely on: the order is total, and a sorted list
 * is determined by its multiset of elements.
 */
module Ordering {
  import opened Sequences

  /** `a <= b` on Python strings. */
  predicate LessEq(a: string, b: string)
    ensures |a| <= |b| && a == b[..|a|] ==> LessEq(a, b)
    ensures b == [] ==> (LessEq(a, b) <==> a == [])
    decreases |a|
  {
    a == [] || (b != [] && (a[0] < b[0] || (a[0] == b[0] && LessEq(a[1..], b[1..]))))
  }

  lemma {:induction false} LessEqReflexive(a: string)
    ensures LessEq(a, a)
    decreases |a|
  {
    if a != [] {
      LessEqReflexive(a[1..]);
    }
  }

  lemma {:induction false} LessEqTotal(a: string, b: string)
    ensures LessEq(a, b) || LessEq(b, a)
    decreases |a|
  {
    if a != [] && b != [] && a[0] == b[0] {
      LessEqTotal(a[1..], b[1..]);
    }
  }

  lemma {:induction false} LessEqAntisymmetric(a: string, b: string)
    requires LessEq(a, b) && LessEq(b, a)
    ensures a == b
    decreases |a|
  {
    if a != [] {
      LessEqAntisymmetric(a[1..], b[1..]);
      assert a == [a[0]] + a[1..] && b == [b[0]] + b[1..];
    }
  }

  lemma {:induction false} LessEqTransitive(a: string, b: string, c: string)
    requires LessEq(a, b) && LessEq(b, c)
    ensures LessEq(a, c)
    decreases |a|
  {
    if a != [] && a[0] == b[0] && b[0] == c[0] {
      LessEqTransitive(a[1..], b[1..], c[1..]);
    }
  }

  predicate Sorted(s: seq<string>) {
    forall i, j :: 0 <= i < j < |s| ==> LessEq(s[i], s[j])
  }

  /** Sorted with no element repeated, as `sorted(set)` produces. */
  predicate StrictlySorted(s: seq<string>) {
    forall i, j :: 0 <= i < j < |s| ==> LessEq(s[i], s[j]) && s[i] != s[j]
  }

  function Insert(x: string, s: seq<string>): (r: seq<string>)
    requires Sorted(s)
    ensures Sorted(r)
    ensures multiset(r) == multiset(s) + multiset{x}
  {
    if s == [] then [x]
    else if LessEq(x, s[0]) then
      LessEqLeast(x, s);
      [x] + s
    else
      var tail := Insert(x, s[1..]);
      LessEqTotal(x, s[0]);
      assert s == [s[0]] + s[1..];
      HeadLeast(s[0], s[1..], x, tail);
      [s[0]] + tail
  }

  lemma LessEqLeast(x: string, s: seq<string>)
    requires Sorted(s) && s != [] && LessEq(x, s[0])
    ensures Sorted([x] + s)
  {
    forall j | 0 < j < |s| + 1 ensures LessEq(x, ([x] + s)[j]) {
      if j > 1 {
        LessEqTransitive(x, s[0], s[j - 1]);
      }
    }
  }

  lemma HeadLeast(h: string, rest: seq<string>, x: string, tail: seq<string>)
    requires Sorted([h] + rest) && Sorted(tail) && LessEq(h, x)
    requires multiset(tail) == multiset(rest) + multiset{x}
    ensures Sorted([h] + tail)
  {
    forall j | 0 <= j < |tail| ensures LessEq(h, tail[j]) {
      assert tail[j] in multiset(tail);
      if tail[j] != x {
        assert tail[j] in multiset(rest);
        var k :| 0 <= k < |rest| && rest[k] == tail[j];
        assert LessEq(([h] + rest)[0], ([h] + rest)[k + 1]);
      }
    }
  }

  /** `sorted(s)` for a list of strings (insertion sort; the result is what matters). */
  function Sort(s: seq<string>): (r: seq<string>)
    ensures Sorted(r)
    ensures multiset(r) == multiset(s)
  {
    if s == [] then []
    else
      assert s == [s[0]] + s[1..];
      Insert(s[0], Sort(s[1..]))
  }

  /** Two non-empty sorted lists with the same elements start with the same, least, element. */
  lemma SortedHeadsAgree(a: seq<string>, b: seq<string>)
    requires Sorted(a) && Sorted(b) && multiset(a) == multiset(b) && a != [] && b != []
    ensures a[0] == b[0]
  {
    assert a[0] in multiset(b) && b[0] in multiset(a);
    var j :| 0 <= j < |b| && b[j] == a[0];
    var k :| 0 <= k < |a| && a[k] == b[0];
    if j == 0 { LessEqReflexive(a[0]); } else { assert LessEq(b[0], b[j]); }
    if k == 0 { LessEqReflexive(b[0]); } else { assert LessEq(a[0], a[k]); }
    LessEqAntisymmetric(a[0], b[0]);
  }

  lemma SortedTail(s: seq<string>)
    requires Sorted(s) && s != []
    ensures Sorted(s[1..])
  {
  }

  /** Lists with the same elements and the same head have tails with the same elements. */
  lemma SameTailMultiset(a: seq<string>, b: seq<string>)
    requires multiset(a) == multiset(b) && a != [] && b != [] && a[0] == b[0]
    ensures multiset(a[1..]) == multiset(b[1..])
  {
    MultisetRemoveAt(a, 0);
    MultisetRemoveAt(b, 0);
    assert a[..0] + a[1..] == a[1..];
    assert b[..0] + b[1..] == b[1..];
  }

  /** Two sorted lists with the same elements, counted with multiplicity, are equal. */
  lemma {:induction false} SortedUnique(a: seq<string>, b: seq<string>)
    requires Sorted(a) && Sorted(b) && multiset(a) == multiset(b)
    ensures a == b
    decreases |a|
  {
    assert |a| == |multiset(a)| == |multiset(b)| == |b|;
    if a != [] {
      SortedHeadsAgree(a, b);
      SortedTail(a);
      SortedTail(b);
      SameTailMultiset(a, b);
      SortedUnique(a[1..], b[1..]);
      assert a == [a[0]] + a[1..] && b == [b[0]] + b[1..];
    }
  }

  /** `sorted` depends only on the multiset of its input: reordering the input changes nothing. */
  lemma SortIgnoresOrder(a: seq<string>, b: seq<string>)
    requires multiset(a) == multiset(b)
    ensures Sort(a) == Sort(b)
  {
    SortedUnique(Sort(a), Sort(b));
  }

  lemma {:induction false} SortTotalLength(s: seq<string>)
    ensures |Sort(s)| == |s|
  {
    assert |multiset(Sort(s))| == |multiset(s)|;
  }

  lemma RepeatCountsTwice(s: seq<string>, i: nat, j: nat)
    requires i < j < |s| && s[i] == s[j]
    ensures multiset(s)[s[i]] >= 2
  {
    assert s == s[..i] + [s[i]] + s[i + 1..j] + [s[j]] + s[j + 1..];
  }

  lemma DistinctByMultiset(s: seq<string>)
    requires forall x :: multiset(s)[x] <= 1
    ensures Distinct(s)
  {
    forall i, j | 0 <= i < j < |s| ensures s[i] != s[j] {
      if s[i] == s[j] {
        RepeatCountsTwice(s, i, j);
        assert false;
      }
    }
  }

  lemma {:induction false} MultisetOfDistinct(s: seq<string>, x: string)
    requires Distinct(s)
    ensures multiset(s)[x] <= 1
  {
    if s != [] {
      assert s == [s[0]] + s[1..];
      MultisetOfDistinct(s[1..], x);
      if x == s[0] {
        assert x !in s[1..];
      }
    }
  }

  /** Sorting a duplicate-free list gives a strictly increasing one. */
  lemma SortDistinct(s: seq<string>)
    requires Distinct(s)
    ensures StrictlySorted(Sort(s))
  {
    forall x ensures multiset(Sort(s))[x] <= 1 {
      MultisetOfDistinct(s, x);
    }
    DistinctByMultiset(Sort(s));
  }
}
