/** Sequence helpers: distinctness, first occurrences, order-preserving
    de-duplication, truncation and counting. */
module Seqs {

  /** No element of `s` occurs twice. */
  predicate Distinct<T(==)>(s: seq<T>) {
    forall i, j :: 0 <= i < j < |s| ==> s[i] != s[j]
  }

  /** The set of elements of `s`. */
  function Elems<T>(s: seq<T>): set<T> {
    set x | x in s
  }

  /** The position of the first occurrence of `x` in `s`. */
  function FirstIndex<T(==)>(s: seq<T>, x: T): (i: nat)
    requires x in s
    ensures i < |s| && s[i] == x
    ensures forall j :: 0 <= j < i ==> s[j] != x
  {
    if s[0] == x then 0 else 1 + FirstIndex(s[1..], x)
  }

  /** Extending a sequence does not move the first occurrence of an element
      it already holds. */
  lemma FirstIndexOfPrefix<T>(s: seq<T>, t: seq<T>, x: T)
    requires x in s
    ensures x in s + t && FirstIndex(s + t, x) == FirstIndex(s, x)
  {
    var i, k := FirstIndex(s, x), FirstIndex(s + t, x);
    assert (s + t)[i] == x;
  }

  /** Keeps each element at its first occurrence and drops every later
      repeat: the key order of a dictionary built from `s`. */
  function Dedup<T(==)>(s: seq<T>): (r: seq<T>)
    ensures Distinct(r)
    ensures forall i :: 0 <= i < |r| ==> r[i] in s
    ensures forall i :: 0 <= i < |s| ==> s[i] in r
    ensures |r| <= |s|
  {
    if |s| == 0 then []
    else
      var p := Dedup(s[..|s| - 1]);
      if s[|s| - 1] in p then p else p + [s[|s| - 1]]
  }

  /** De-duplication keeps the order of first occurrences: of two kept
      elements, the one that occurs first in `s` comes first. */
  lemma {:induction false} DedupKeepsFirstOccurrenceOrder<T>(s: seq<T>, i: nat, j: nat)
    requires i < j < |Dedup(s)|
    ensures FirstIndex(s, Dedup(s)[i]) < FirstIndex(s, Dedup(s)[j])
  {
    var init, last := s[..|s| - 1], s[|s| - 1];
    assert s == init + [last];
    var p := Dedup(init);
    if j < |p| {
      DedupKeepsFirstOccurrenceOrder(init, i, j);
      FirstIndexOfPrefix(init, [last], p[i]);
      FirstIndexOfPrefix(init, [last], p[j]);
    } else {
      assert last !in init;
      FirstIndexOfPrefix(init, [last], p[i]);
    }
  }

  /** Appending an element that already occurs changes nothing. */
  lemma DedupOfRepeat<T>(s: seq<T>, x: T)
    requires x in s
    ensures Dedup(s + [x]) == Dedup(s)
  {
    assert (s + [x])[..|s|] == s;
  }

  /** The first `n` elements of `s`, or all of `s` when it is shorter:
      Python's slice `s[:n]`. */
  function Take<T>(s: seq<T>, n: nat): (r: seq<T>)
    ensures |r| == if n < |s| then n else |s|
    ensures r == s[..|r|]
  {
    if n < |s| then s[..n] else s
  }

  /** How often `x` occurs in `s`. */
  function Count<T(==)>(s: seq<T>, x: T): nat {
    if |s| == 0 then 0
    else (if s[0] == x then 1 else 0) + Count(s[1..], x)
  }

  /** Counting distributes over concatenation. */
  lemma {:induction false} CountAppend<T>(s: seq<T>, t: seq<T>, x: T)
    ensures Count(s + t, x) == Count(s, x) + Count(t, x)
  {
    if |s| > 0 {
      assert (s + t)[1..] == s[1..] + t;
      CountAppend(s[1..], t, x);
    } else {
      assert s + t == t;
    }
  }

  /** A sequence without repeats has as many elements as its length. */
  lemma {:induction false} DistinctCard<T>(s: seq<T>)
    requires Distinct(s)
    ensures |Elems(s)| == |s|
  {
    if |s| > 0 {
      var init := s[..|s| - 1];
      assert Distinct(init);
      DistinctCard(init);
      assert Elems(s) == Elems(init) + {s[|s| - 1]};
      assert s[|s| - 1] !in Elems(init);
    }
  }

  /** Distinct elements of a set, as many as the set has, are all of it. */
  lemma DistinctFillsSet<T>(s: seq<T>, xs: set<T>)
    requires Distinct(s) && |s| == |xs|
    requires forall i :: 0 <= i < |s| ==> s[i] in xs
    ensures Elems(s) == xs
  {
    DistinctCard(s);
    var extra := xs - Elems(s);
    assert xs == Elems(s) + extra;
    assert extra == {};
  }

  /** How many elements of `s` are in `xs`, repetitions counted. */
  function CountIn<T>(s: seq<T>, xs: set<T>): nat {
    if |s| == 0 then 0 else (if s[0] in xs then 1 else 0) + CountIn(s[1..], xs)
  }

  /** Without repetitions, that is the size of the part of `xs` that `s`
      lists. */
  lemma {:induction false} CountInDistinct<T>(s: seq<T>, xs: set<T>)
    requires Distinct(s)
    ensures CountIn(s, xs) == |xs * Elems(s)|
    decreases |s|
  {
    if |s| > 0 {
      var x, rest := s[0], s[1..];
      assert Distinct(rest) && x !in Elems(rest);
      assert Elems(s) == {x} + Elems(rest);
      CountInDistinct(rest, xs);
      AddFresh(xs, x, Elems(rest));
    }
  }

  /** A distinct sequence lists each element of a set it covers once. */
  lemma CountInCovered<T>(s: seq<T>, xs: set<T>)
    requires Distinct(s) && forall x :: x in xs ==> x in s
    ensures CountIn(s, xs) == |xs|
  {
    CountInDistinct(s, xs);
    assert xs * Elems(s) == xs;
  }

  /** Adding an element `x` that `ys` lacks grows `xs * ys` by one exactly
      when `x` is in `xs`. */
  lemma AddFresh<T>(xs: set<T>, x: T, ys: set<T>)
    requires x !in ys
    ensures |xs * ({x} + ys)| == |xs * ys| + if x in xs then 1 else 0
  {
    if x in xs {
      assert xs * ({x} + ys) == (xs * ys) + {x};
    } else {
      assert xs * ({x} + ys) == xs * ys;
    }
  }
}
