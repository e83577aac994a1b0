/** The two sorts `read_spectra` uses: `sorted(set(...))` on exposure-id
    strings (Python compares strings code point by code point, a proper prefix
    first) and `sorted(...)` on integer target ids. */
module Ordering {

  /** Python's `a < b` on `str`. */
  predicate LexLess(a: string, b: string)
  {
    if |a| == 0 then |b| > 0
    else if |b| == 0 then false
    else if a[0] != b[0] then a[0] < b[0]
    else LexLess(a[1..], b[1..])
  }

  lemma {:induction false} LexIrreflexive(a: string)
    ensures !LexLess(a, a)
  {
    if |a| > 0 { LexIrreflexive(a[1..]); }
  }

  lemma {:induction false} LexTransitive(a: string, b: string, c: string)
    requires LexLess(a, b) && LexLess(b, c)
    ensures LexLess(a, c)
  {
    if |a| > 0 && |b| > 0 && |c| > 0 && a[0] == b[0] && b[0] == c[0] {
      LexTransitive(a[1..], b[1..], c[1..]);
    }
  }

  lemma {:induction false} LexTotal(a: string, b: string)
    requires a != b
    ensures LexLess(a, b) || LexLess(b, a)
  {
    if |a| > 0 && |b| > 0 && a[0] == b[0] {
      assert a == [a[0]] + a[1..] && b == [b[0]] + b[1..];
      LexTotal(a[1..], b[1..]);
    }
  }

  lemma {:induction false} LexAsymmetric(a: string, b: string)
    requires LexLess(a, b)
    ensures !LexLess(b, a)
  {
    if |a| > 0 && |b| > 0 && a[0] == b[0] {
      LexAsymmetric(a[1..], b[1..]);
    }
  }

  predicate StrictlySorted(s: seq<string>)
  {
    forall i, j :: 0 <= i < j < |s| ==> LexLess(s[i], s[j])
  }

  /** The elements of a list, as a set. */
  function Elems(s: seq<string>): set<string>
  {
    set y | y in s
  }

  /** Puts `x` into its place in a strictly sorted list, dropping it when it
      is already there. */
  function Insert(x: string, s: seq<string>): (r: seq<string>)
    requires StrictlySorted(s)
    ensures StrictlySorted(r)
    ensures Elems(r) == Elems(s) + {x}
    decreases |s|
  {
    if s == [] then [x]
    else if x == s[0] then s
    else if LexLess(x, s[0]) then
      InsertFront(x, s);
      [x] + s
    else
      LexTotal(x, s[0]);
      var rest := Insert(x, s[1..]);
      InsertStep(x, s, rest);
      [s[0]] + rest
  }

  /** An element below the head of a strictly sorted list goes in front. */
  lemma InsertFront(x: string, s: seq<string>)
    requires StrictlySorted(s) && s != [] && LexLess(x, s[0])
    ensures StrictlySorted([x] + s)
    ensures Elems([x] + s) == Elems(s) + {x}
  {
    forall j | 0 < j < |s| ensures LexLess(x, s[j]) { LexTransitive(x, s[0], s[j]); }
  }

  /** Putting the head of `s` in front of the insertion into its tail keeps
      the strict order and the elements. */
  lemma InsertStep(x: string, s: seq<string>, rest: seq<string>)
    requires StrictlySorted(s) && s != [] && LexLess(s[0], x)
    requires StrictlySorted(rest) && Elems(rest) == Elems(s[1..]) + {x}
    ensures StrictlySorted([s[0]] + rest)
    ensures Elems([s[0]] + rest) == Elems(s) + {x}
  {
    forall k | 0 <= k < |rest| ensures LexLess(s[0], rest[k]) {
      assert rest[k] in Elems(rest);
      if rest[k] != x {
        assert rest[k] in Elems(s[1..]);
        var m :| 0 <= m < |s[1..]| && s[1..][m] == rest[k];
        assert s[m + 1] == rest[k];
      }
    }
    assert s == [s[0]] + s[1..];
    assert Elems(s) == {s[0]} + Elems(s[1..]);
    assert Elems([s[0]] + rest) == {s[0]} + Elems(rest);
  }

  /** `sorted(set(xs))`: the distinct elements of `xs` in increasing order. */
  function SortedDistinct(xs: seq<string>): (r: seq<string>)
    ensures StrictlySorted(r)
    ensures Elems(r) == Elems(xs)
  {
    if xs == [] then []
    else
      var init := xs[..|xs| - 1];
      assert xs == init + [xs[|xs| - 1]];
      Insert(xs[|xs| - 1], SortedDistinct(init))
  }

  /** A strictly sorted list holds no element twice. */
  lemma StrictlySortedDistinct(s: seq<string>, i: int, j: int)
    requires StrictlySorted(s) && 0 <= i < |s| && 0 <= j < |s| && i != j
    ensures s[i] != s[j]
  {
    if i < j { LexIrreflexive(s[i]); } else { LexIrreflexive(s[j]); }
  }

  predicate Sorted(s: seq<int>)
  {
    forall i, j :: 0 <= i < j < |s| ==> s[i] <= s[j]
  }

  function InsertInt(x: int, s: seq<int>): (r: seq<int>)
    requires Sorted(s)
    ensures Sorted(r)
    ensures multiset(r) == multiset(s) + multiset{x}
  {
    if s == [] || x <= s[0] then [x] + s
    else
      var rest := InsertInt(x, s[1..]);
      InsertIntStep(x, s, rest);
      [s[0]] + rest
  }

  /** Putting the head of `s` in front of the insertion into its tail keeps
      the order and the elements. */
  lemma InsertIntStep(x: int, s: seq<int>, rest: seq<int>)
    requires Sorted(s) && s != [] && s[0] < x
    requires Sorted(rest) && multiset(rest) == multiset(s[1..]) + multiset{x}
    ensures Sorted([s[0]] + rest)
    ensures multiset([s[0]] + rest) == multiset(s) + multiset{x}
  {
    assert s == [s[0]] + s[1..];
    forall k | 0 <= k < |rest| ensures s[0] <= rest[k] {
      assert rest[k] in multiset(rest);
      if rest[k] != x {
        assert rest[k] in multiset(s[1..]);
        var j :| 0 <= j < |s[1..]| && s[1..][j] == rest[k];
        assert s[j + 1] == rest[k];
      }
    }
  }

  /** Python `sorted(xs)` on integers: a sorted permutation of `xs`. */
  function SortInts(xs: seq<int>): (r: seq<int>)
    ensures Sorted(r)
    ensures multiset(r) == multiset(xs)
  {
    if xs == [] then []
    else
      assert xs == xs[..|xs| - 1] + [xs[|xs| - 1]];
      InsertInt(xs[|xs| - 1], SortInts(xs[..|xs| - 1]))
  }

  /** The elements of a list of integers, as a set. */
  function IntElems(s: seq<int>): set<int>
  {
    set y | y in s
  }

  predicate Distinct(s: seq<int>)
  {
    forall i, j :: 0 <= i < j < |s| ==> s[i] != s[j]
  }

  /** A list has as many distinct elements as entries exactly when no entry
      repeats. */
  lemma {:induction false} DistinctCard(s: seq<int>)
    ensures |IntElems(s)| <= |s|
    ensures |IntElems(s)| == |s| <==> Distinct(s)
  {
    if s != [] {
      var init := s[..|s| - 1];
      var x := s[|s| - 1];
      DistinctCard(init);
      assert s == init + [x];
      DistinctSnoc(init, x);
      if x in init {
        assert IntElems(s) == IntElems(init);
      } else {
        assert |IntElems(s)| == |IntElems(init)| + 1;
      }
    }
  }

  /** Appending `x` adds it to the elements, and keeps the list free of
      repeats exactly when `x` is new. */
  lemma DistinctSnoc(init: seq<int>, x: int)
    ensures IntElems(init + [x]) == IntElems(init) + {x}
    ensures Distinct(init + [x]) <==> Distinct(init) && x !in init
  {
    var s := init + [x];
    if x in init {
      var i :| 0 <= i < |init| && init[i] == x;
      assert s[i] == s[|s| - 1];
    } else if Distinct(init) {
      forall i, j | 0 <= i < j < |s| ensures s[i] != s[j] {
        if j == |s| - 1 { assert s[i] == init[i]; } else { assert s[i] == init[i] && s[j] == init[j]; }
      }
    } else {
      var i, j :| 0 <= i < j < |init| && init[i] == init[j];
      assert s[i] == s[j];
    }
  }

  /** Sorting keeps the elements and the absence of repeats. */
  lemma SortIntsKeeps(xs: seq<int>)
    ensures IntElems(SortInts(xs)) == IntElems(xs)
    ensures |SortInts(xs)| == |xs|
    ensures Distinct(SortInts(xs)) <==> Distinct(xs)
  {
    var r := SortInts(xs);
    assert |r| == |multiset(r)| == |multiset(xs)| == |xs|;
    assert forall y :: y in r <==> y in multiset(r);
    assert forall y :: y in xs <==> y in multiset(xs);
    assert IntElems(r) == IntElems(xs);
    DistinctCard(r);
    DistinctCard(xs);
  }
}
