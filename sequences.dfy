/** Generic sequence notions: duplicate freedom, subsequences, concatenation, and `list(set)`. */
module Sequences {

  predicate Distinct<T(==)>(s: seq<T>) {
    forall i, j :: 0 <= i < j < |s| ==> s[i] != s[j]
  }

  /** `sub` is `s` with some elements left out, in the original order. */
  predicate IsSubsequence<T(==)>(sub: seq<T>, s: seq<T>)
    decreases |s|
  {
    sub == [] || (s != [] && ((sub[0] == s[0] && IsSubsequence(sub[1..], s[1..])) || IsSubsequence(sub, s[1..])))
  }

  /** The concatenation of the lists in `ss`, in order (what repeated `list.extend` builds). */
  function Flatten<T>(ss: seq<seq<T>>): seq<T> {
    if ss == [] then [] else Flatten(ss[..|ss| - 1]) + ss[|ss| - 1]
  }

  lemma {:induction false} FlattenMembership<T>(ss: seq<seq<T>>, x: T)
    ensures x in Flatten(ss) <==> exists i :: 0 <= i < |ss| && x in ss[i]
  {
    if ss != [] {
      var init := ss[..|ss| - 1];
      FlattenMembership(init, x);
      if x in Flatten(ss) && x !in ss[|ss| - 1] {
        var i :| 0 <= i < |init| && x in init[i];
        assert ss[i] == init[i];
      }
      if exists i :: 0 <= i < |ss| && x in ss[i] {
        var i :| 0 <= i < |ss| && x in ss[i];
        if i < |ss| - 1 {
          assert init[i] == ss[i];
        }
      }
    }
  }

  /** Appending keeps a list free of repeats exactly when the new element is not already there. */
  lemma DistinctSnoc<T>(s: seq<T>, x: T)
    ensures Distinct(s + [x]) <==> Distinct(s) && x !in s
  {
    var t := s + [x];
    if Distinct(t) {
      forall i, j | 0 <= i < j < |s| ensures s[i] != s[j] {
        assert s[i] == t[i] && s[j] == t[j];
      }
      forall i | 0 <= i < |s| ensures s[i] != x {
        assert s[i] == t[i] && x == t[|s|];
      }
    }
  }

  /** `[f(x) for x in s]` */
  function Map<T, U>(f: T -> U, s: seq<T>): seq<U> {
    seq(|s|, i requires 0 <= i < |s| => f(s[i]))
  }

  lemma MapAppend<T, U>(f: T -> U, s: seq<T>, t: seq<T>)
    ensures Map(f, s + t) == Map(f, s) + Map(f, t)
  {
    assert forall i :: 0 <= i < |s + t| ==> Map(f, s + t)[i] == (Map(f, s) + Map(f, t))[i];
  }

  /** Taking out the element at `j` takes one copy of it out of the multiset. */
  lemma MultisetRemoveAt<T>(s: seq<T>, j: nat)
    requires j < |s|
    ensures multiset(s[..j] + s[j + 1..]) == multiset(s) - multiset{s[j]}
  {
    assert s == s[..j] + [s[j]] + s[j + 1..];
    assert multiset(s) == multiset(s[..j]) + multiset{s[j]} + multiset(s[j + 1..]);
  }

  /** Mapping two lists that hold the same elements gives two lists that hold the same elements. */
  lemma {:induction false} MapPermutation<T, U>(f: T -> U, a: seq<T>, b: seq<T>)
    requires multiset(a) == multiset(b)
    ensures multiset(Map(f, a)) == multiset(Map(f, b))
    decreases |a|
  {
    if a != [] {
      var j := IndexOf(b, a[0]);
      var restB := b[..j] + b[j + 1..];
      RemoveMatching(a, b, j);
      MapPermutation(f, a[1..], restB);
      MultisetOfMapRemoveAt(f, a, 0);
      MultisetOfMapRemoveAt(f, b, j);
    }
  }

  /** Taking the head of `a` and a matching element of `b` out of two lists with the same elements leaves two such lists. */
  lemma RemoveMatching<T>(a: seq<T>, b: seq<T>, j: nat)
    requires multiset(a) == multiset(b) && a != [] && j < |b| && b[j] == a[0]
    ensures multiset(a[1..]) == multiset(b[..j] + b[j + 1..])
  {
    MultisetRemoveAt(a, 0);
    MultisetRemoveAt(b, j);
    assert a[..0] + a[1..] == a[1..];
  }

  /** Some position of `x` in `s`. */
  lemma IndexOf<T>(s: seq<T>, x: T) returns (j: nat)
    requires x in multiset(s)
    ensures j < |s| && s[j] == x
  {
    assert x in s;
    j :| 0 <= j < |s| && s[j] == x;
  }

  /** The mapped list holds `f(s[j])` once more than the mapped list without position `j`. */
  lemma MultisetOfMapRemoveAt<T, U>(f: T -> U, s: seq<T>, j: nat)
    requires j < |s|
    ensures multiset(Map(f, s)) == multiset(Map(f, s[..j] + s[j + 1..])) + multiset{f(s[j])}
    ensures j == 0 ==> multiset(Map(f, s)) == multiset(Map(f, s[1..])) + multiset{f(s[0])}
  {
    MapSplit(f, s, j);
    MapAppend(f, s[..j], s[j + 1..]);
    assert s[..0] + s[1..] == s[1..];
  }

  lemma MapSplit<T, U>(f: T -> U, b: seq<T>, j: nat)
    requires j < |b|
    ensures Map(f, b) == Map(f, b[..j]) + [f(b[j])] + Map(f, b[j + 1..])
  {
    var r := Map(f, b[..j]) + [f(b[j])] + Map(f, b[j + 1..]);
    assert forall i :: 0 <= i < |b| ==> Map(f, b)[i] == r[i];
  }

  /** `list(xs)` for a set: every element exactly once, in an unspecified order. */
  method SetToSeq<T(==)>(xs: set<T>) returns (s: seq<T>)
    ensures Distinct(s)
    ensures forall x :: x in s <==> x in xs
  {
    s := [];
    var rest := xs;
    while rest != {}
      invariant rest <= xs
      invariant Distinct(s)
      invariant forall x :: x in s <==> x in xs && x !in rest
      decreases rest
    {
      var x :| x in rest;
      s := s + [x];
      rest := rest - {x};
    }
  }
}
