/** Sequences under a comparison function: the mathematics behind list_sort
    (src/lib/kernel/list.c).  Elements are compared only through LESS, as in the source. */
module Ordering {

  /** LESS is a strict weak order on the elements of S: irreflexive, transitive, and
      incomparability is transitive. */
  ghost predicate StrictWeakOrder<T>(less: (T, T) -> bool, S: set<T>) {
    && (forall x {:trigger less(x, x)} | x in S :: !less(x, x))
    && (forall x, y, z {:trigger Three(x, y, z)} | x in S && y in S && z in S ::
          (less(x, y) && less(y, z) ==> less(x, z)) && (!less(x, y) && !less(y, z) ==> !less(x, z)))
  }

  /** Names a triple of elements, so that transitivity is used only where a proof says so. */
  ghost predicate Three<T>(x: T, y: T, z: T) {
    true
  }

  predicate Equivalent<T>(less: (T, T) -> bool, x: T, y: T) {
    !less(x, y) && !less(y, x)
  }

  /** Nondecreasing: no later element is less than an earlier one. */
  ghost predicate Sorted<T>(less: (T, T) -> bool, s: seq<T>) {
    forall i, j | 0 <= i < j < |s| :: !less(s[j], s[i])
  }

  ghost predicate Within<T>(s: seq<T>, S: set<T>) {
    forall x | x in s :: x in S
  }

  /** The elements of s equivalent to x, in the order in which s holds them. */
  ghost function Class<T>(less: (T, T) -> bool, x: T, s: seq<T>): seq<T> {
    if s == [] then []
    else (if Equivalent(less, x, s[0]) then [s[0]] else []) + Class(less, x, s[1..])
  }

  /** t holds the same elements as s, with every class of equivalent elements in the same order. */
  ghost predicate StableRearrangement<T>(less: (T, T) -> bool, S: set<T>, s: seq<T>, t: seq<T>) {
    && multiset(s) == multiset(t)
    && forall x | x in S :: Class(less, x, s) == Class(less, x, t)
  }

  lemma ClassUncons<T>(less: (T, T) -> bool, x: T, h: T, tail: seq<T>, s: seq<T>)
    requires s != [] && s[0] == h && s[1..] == tail
    ensures Class(less, x, s) == (if Equivalent(less, x, h) then [h] else []) + Class(less, x, tail)
  {
  }

  lemma Assoc<T>(a: seq<T>, b: seq<T>, c: seq<T>)
    ensures a + (b + c) == (a + b) + c
  {
  }

  lemma {:induction false} ClassConcat<T>(less: (T, T) -> bool, x: T, s: seq<T>, t: seq<T>)
    ensures Class(less, x, s + t) == Class(less, x, s) + Class(less, x, t)
  {
    if s == [] {
      assert s + t == t;
    } else {
      hide *;
      var h := if Equivalent(less, x, s[0]) then [s[0]] else [];
      assert Class(less, x, s + t) == h + Class(less, x, s[1..] + t) by {
        assert (s + t)[1..] == s[1..] + t;
        ClassUncons(less, x, s[0], s[1..] + t, s + t);
      }
      assert Class(less, x, s) == h + Class(less, x, s[1..]) by {
        ClassUncons(less, x, s[0], s[1..], s);
      }
      ClassConcat(less, x, s[1..], t);
      Assoc(h, Class(less, x, s[1..]), Class(less, x, t));
    }
  }

  lemma {:induction false} ClassEmpty<T>(less: (T, T) -> bool, x: T, s: seq<T>)
    requires forall y | y in s :: !Equivalent(less, x, y)
    ensures Class(less, x, s) == []
  {
    if s != [] {
      ClassEmpty(less, x, s[1..]);
    }
  }

  // ---- merging -------------------------------------------------------------------------

  /** Two-way merge that prefers the left sequence on ties. */
  function Merge<T>(less: (T, T) -> bool, a: seq<T>, b: seq<T>): (m: seq<T>)
    ensures |m| == |a| + |b|
  {
    if a == [] then b
    else if b == [] then a
    else if less(b[0], a[0]) then [b[0]] + Merge(less, a, b[1..])
    else [a[0]] + Merge(less, a[1..], b)
  }

  lemma {:induction false} MergeMultiset<T>(less: (T, T) -> bool, a: seq<T>, b: seq<T>)
    ensures multiset(Merge(less, a, b)) == multiset(a) + multiset(b)
  {
    if a != [] && b != [] {
      if less(b[0], a[0]) {
        MergeMultiset(less, a, b[1..]);
        assert Merge(less, a, b) == [b[0]] + Merge(less, a, b[1..]);
        MultisetCons(b);
      } else {
        MergeMultiset(less, a[1..], b);
        assert Merge(less, a, b) == [a[0]] + Merge(less, a[1..], b);
        MultisetCons(a);
      }
    }
  }

  lemma MultisetCons<T>(s: seq<T>)
    requires s != []
    ensures multiset(s) == multiset{s[0]} + multiset(s[1..])
  {
    assert s == [s[0]] + s[1..];
  }

  lemma MergeMember<T>(less: (T, T) -> bool, a: seq<T>, b: seq<T>, y: T)
    requires y in Merge(less, a, b)
    ensures y in a || y in b
  {
    MergeMultiset(less, a, b);
    assert y in multiset(Merge(less, a, b));
    assert y in multiset(a) || y in multiset(b);
  }

  lemma SortedCons<T>(less: (T, T) -> bool, x: T, s: seq<T>)
    requires Sorted(less, s)
    requires forall y | y in s :: !less(y, x)
    ensures Sorted(less, [x] + s)
  {
  }

  lemma SortedHead<T>(less: (T, T) -> bool, S: set<T>, s: seq<T>, y: T)
    requires StrictWeakOrder(less, S) && Within(s, S) && Sorted(less, s) && y in s
    ensures !less(y, s[0])
  {
    var k :| 0 <= k < |s| && s[k] == y;
  }

  lemma InTail<T>(s: seq<T>, y: T)
    requires s != [] && y in s[1..]
    ensures y in s
  {
    var k :| 0 <= k < |s[1..]| && s[1..][k] == y;
    assert s[k + 1] == y;
  }

  lemma {:induction false} MergeSorted<T>(less: (T, T) -> bool, S: set<T>, a: seq<T>, b: seq<T>)
    requires StrictWeakOrder(less, S) && Within(a, S) && Within(b, S)
    requires Sorted(less, a) && Sorted(less, b)
    ensures Sorted(less, Merge(less, a, b))
  {
    if a != [] && b != [] {
      if less(b[0], a[0]) {
        MergeSorted(less, S, a, b[1..]);
        forall y | y in Merge(less, a, b[1..]) ensures !less(y, b[0]) {
          MergeMember(less, a, b[1..], y);
          if y in a {
            SortedHead(less, S, a, y);
            assert Three(y, b[0], a[0]);
          } else {
            InTail(b, y);
            SortedHead(less, S, b, y);
          }
        }
        SortedCons(less, b[0], Merge(less, a, b[1..]));
      } else {
        MergeSorted(less, S, a[1..], b);
        forall y | y in Merge(less, a[1..], b) ensures !less(y, a[0]) {
          MergeMember(less, a[1..], b, y);
          if y in b {
            SortedHead(less, S, b, y);
            assert Three(y, b[0], a[0]);
          } else {
            InTail(a, y);
            SortedHead(less, S, a, y);
          }
        }
        SortedCons(less, a[0], Merge(less, a[1..], b));
      }
    }
  }

  /** An element less than the head of a sorted run is equivalent to nothing in the run. */
  lemma ClassBelowRun<T>(less: (T, T) -> bool, S: set<T>, a: seq<T>, b0: T, x: T)
    requires StrictWeakOrder(less, S) && Within(a, S) && b0 in S && x in S
    requires a != [] && Sorted(less, a) && less(b0, a[0]) && Equivalent(less, x, b0)
    ensures Class(less, x, a) == []
  {
    forall y | y in a ensures !Equivalent(less, x, y) {
      SortedHead(less, S, a, y);
      assert Three(b0, x, y) && Three(b0, y, a[0]);
    }
    ClassEmpty(less, x, a);
  }

  /** Merging keeps every class in the order "left run, then right run". */
  lemma {:induction false} MergeStable<T>(less: (T, T) -> bool, S: set<T>, a: seq<T>, b: seq<T>, x: T)
    requires StrictWeakOrder(less, S) && Within(a, S) && Within(b, S) && x in S
    requires Sorted(less, a)
    ensures Class(less, x, Merge(less, a, b)) == Class(less, x, a) + Class(less, x, b)
  {
    if a == [] || b == [] {
      assert Class<T>(less, x, []) == [];
    } else if less(b[0], a[0]) {
      MergeStable(less, S, a, b[1..], x);
      MergeStableRight(less, S, a, b, x);
    } else {
      MergeStable(less, S, a[1..], b, x);
      MergeStableLeft(less, a, b, x);
    }
  }

  lemma MergeStableRight<T>(less: (T, T) -> bool, S: set<T>, a: seq<T>, b: seq<T>, x: T)
    requires StrictWeakOrder(less, S) && Within(a, S) && x in S && b != [] && b[0] in S
    requires Sorted(less, a) && a != [] && less(b[0], a[0])
    requires Class(less, x, Merge(less, a, b[1..])) == Class(less, x, a) + Class(less, x, b[1..])
    ensures Class(less, x, Merge(less, a, b)) == Class(less, x, a) + Class(less, x, b)
  {
    hide *;
    MergeUnfold(less, a, b);
    ClassUncons(less, x, b[0], Merge(less, a, b[1..]), Merge(less, a, b));
    ClassUncons(less, x, b[0], b[1..], b);
    if Equivalent(less, x, b[0]) {
      ClassBelowRun(less, S, a, b[0], x);
    }
  }

  lemma MergeStableLeft<T>(less: (T, T) -> bool, a: seq<T>, b: seq<T>, x: T)
    requires a != [] && b != [] && !less(b[0], a[0])
    requires Class(less, x, Merge(less, a[1..], b)) == Class(less, x, a[1..]) + Class(less, x, b)
    ensures Class(less, x, Merge(less, a, b)) == Class(less, x, a) + Class(less, x, b)
  {
    hide *;
    MergeUnfold(less, a, b);
    ClassUncons(less, x, a[0], Merge(less, a[1..], b), Merge(less, a, b));
    ClassUncons(less, x, a[0], a[1..], a);
  }

  lemma MergeUnfold<T>(less: (T, T) -> bool, a: seq<T>, b: seq<T>)
    requires a != [] && b != []
    ensures Merge(less, a, b)[0] == if less(b[0], a[0]) then b[0] else a[0]
    ensures Merge(less, a, b)[1..] == if less(b[0], a[0]) then Merge(less, a, b[1..]) else Merge(less, a[1..], b)
  {
  }

  // ---- runs ----------------------------------------------------------------------------

  /** Length of the first maximal nondecreasing run. */
  function RunLength<T>(less: (T, T) -> bool, s: seq<T>): (n: nat)
    requires s != []
    ensures 1 <= n <= |s|
  {
    if |s| == 1 || less(s[1], s[0]) then 1 else 1 + RunLength(less, s[1..])
  }

  /** Number of maximal nondecreasing runs. */
  function Runs<T>(less: (T, T) -> bool, s: seq<T>): (n: nat)
    ensures n == 0 <==> s == []
  {
    if s == [] then 0 else 1 + Runs(less, s[RunLength(less, s)..])
  }

  /** A run is adjacent-wise nondecreasing and cannot be extended. */
  lemma {:induction false} RunIsMaximal<T>(less: (T, T) -> bool, s: seq<T>)
    requires s != []
    ensures forall i | 1 <= i < RunLength(less, s) :: !less(s[i], s[i - 1])
    ensures var n := RunLength(less, s); n < |s| ==> less(s[n], s[n - 1])
  {
    if !(|s| == 1 || less(s[1], s[0])) {
      RunIsMaximal(less, s[1..]);
      forall i | 1 <= i < RunLength(less, s) ensures !less(s[i], s[i - 1]) {
        if i >= 2 {
          assert !less(s[1..][i - 1], s[1..][i - 2]);
        }
      }
    }
  }

  /** Under a strict weak order, adjacent-wise order is order. */
  lemma {:induction false} AdjacentSorted<T>(less: (T, T) -> bool, S: set<T>, s: seq<T>)
    requires StrictWeakOrder(less, S) && Within(s, S)
    requires forall i | 1 <= i < |s| :: !less(s[i], s[i - 1])
    ensures Sorted(less, s)
  {
    if |s| > 1 {
      var t := s[..|s| - 1];
      AdjacentSorted(less, S, t);
      forall i, j | 0 <= i < j < |s| ensures !less(s[j], s[i]) {
        if j < |s| - 1 {
          assert !less(t[j], t[i]);
        } else if i < j - 1 {
          assert !less(t[j - 1], t[i]);
          assert Three(s[j], s[j - 1], s[i]);
        }
      }
    }
  }

  lemma FirstRunSorted<T>(less: (T, T) -> bool, S: set<T>, s: seq<T>)
    requires StrictWeakOrder(less, S) && Within(s, S) && s != []
    ensures Sorted(less, s[..RunLength(less, s)])
  {
    RunIsMaximal(less, s);
    AdjacentSorted(less, S, s[..RunLength(less, s)]);
  }

  /** Putting a sorted, nonempty block in front of t adds at most one run. */
  lemma {:induction false} RunsOfBlock<T>(less: (T, T) -> bool, a: seq<T>, t: seq<T>)
    requires a != [] && Sorted(less, a)
    ensures Runs(less, a + t) <= 1 + Runs(less, t)
    ensures t != [] ==> RunLength(less, a + t) == |a| || RunLength(less, a + t) == |a| + RunLength(less, t)
    ensures t == [] ==> RunLength(less, a + t) == |a|
  {
    var s := a + t;
    RunOverBlock(less, a, t);
    var n := RunLength(less, s);
    if t == [] {
      assert s[n..] == [];
    } else if n == |a| {
      assert s[n..] == t;
    } else {
      assert s[n..] == t[RunLength(less, t)..];
    }
  }

  lemma {:induction false} RunOverBlock<T>(less: (T, T) -> bool, a: seq<T>, t: seq<T>)
    requires a != [] && Sorted(less, a)
    ensures t != [] ==> RunLength(less, a + t) == |a| || RunLength(less, a + t) == |a| + RunLength(less, t)
    ensures t == [] ==> RunLength(less, a + t) == |a|
  {
    var s := a + t;
    if |a| == 1 {
      if t != [] {
        assert s[1..] == t;
      }
    } else {
      assert s[1..] == a[1..] + t;
      assert !less(a[1], a[0]);
      RunOverBlock(less, a[1..], t);
    }
  }

  // ---- one pass of the natural merge sort ----------------------------------------------

  /** One pass: merge adjacent pairs of runs; a last unpaired run is left as it is. */
  function Pass<T>(less: (T, T) -> bool, s: seq<T>): (p: seq<T>)
    ensures |p| == |s|
  {
    if s == [] then []
    else
      var m := RunLength(less, s);
      if m == |s| then s
      else
        var n := RunLength(less, s[m..]);
        Merge(less, s[..m], s[m..m + n]) + Pass(less, s[m + n..])
  }

  /** The number of output runs a pass counts. */
  function PassCount<T>(less: (T, T) -> bool, s: seq<T>): nat {
    if s == [] then 0
    else
      var m := RunLength(less, s);
      if m == |s| then 1 else 1 + PassCount(less, s[m + RunLength(less, s[m..])..])
  }

  /** A pass that finds r runs counts exactly ceil(r/2). */
  lemma {:induction false} PassCountHalves<T>(less: (T, T) -> bool, s: seq<T>)
    ensures PassCount(less, s) == (Runs(less, s) + 1) / 2
    decreases |s|
  {
    if s != [] {
      var m := RunLength(less, s);
      if m == |s| {
        assert s[m..] == [];
      } else {
        var n := RunLength(less, s[m..]);
        PassUnfold(less, s, m, n);
        hide *;
        PassCountHalves(less, s[m + n..]);
      }
    }
  }

  lemma WithinSlices<T>(s: seq<T>, S: set<T>, m: nat, n: nat)
    requires Within(s, S) && m <= n <= |s|
    ensures Within(s[..m], S) && Within(s[m..n], S) && Within(s[n..], S) && Within(s[m..], S)
  {
  }

  /** The two runs at the front of a pass, and what is known of their merge. */
  lemma FirstPair<T>(less: (T, T) -> bool, S: set<T>, s: seq<T>, m: nat, n: nat)
    requires StrictWeakOrder(less, S) && Within(s, S) && s != []
    requires m == RunLength(less, s) && m < |s| && n == RunLength(less, s[m..])
    ensures Sorted(less, s[..m]) && Sorted(less, s[m..m + n])
    ensures Sorted(less, Merge(less, s[..m], s[m..m + n]))
    ensures Within(s[..m], S) && Within(s[m..m + n], S) && Within(s[m + n..], S)
  {
    FirstRunSorted(less, S, s);
    SecondRunSorted(less, S, s, m, n);
    WithinSlices(s, S, m, m + n);
    MergeSorted(less, S, s[..m], s[m..m + n]);
  }

  lemma SecondRunSorted<T>(less: (T, T) -> bool, S: set<T>, s: seq<T>, m: nat, n: nat)
    requires StrictWeakOrder(less, S) && Within(s, S) && m < |s| && n == RunLength(less, s[m..])
    ensures Sorted(less, s[m..m + n])
  {
    WithinSlices(s, S, m, m);
    FirstRunSorted(less, S, s[m..]);
    assert s[m..][..n] == s[m..m + n];
  }

  lemma ThreeParts<T>(s: seq<T>, m: nat, k: nat)
    requires m <= k <= |s|
    ensures s == s[..m] + s[m..k] + s[k..]
    ensures multiset(s) == multiset(s[..m]) + multiset(s[m..k]) + multiset(s[k..])
  {
    assert s == s[..m] + s[m..k] + s[k..];
  }

  /** A pass at least halves the number of runs (rounding up). */
  lemma {:induction false} PassHalvesRuns<T>(less: (T, T) -> bool, S: set<T>, s: seq<T>)
    requires StrictWeakOrder(less, S) && Within(s, S)
    ensures Runs(less, Pass(less, s)) <= PassCount(less, s) == (Runs(less, s) + 1) / 2
    decreases |s|
  {
    PassCountHalves(less, s);
    if s != [] && RunLength(less, s) < |s| {
      var m := RunLength(less, s);
      var n := RunLength(less, s[m..]);
      PassUnfold(less, s, m, n);
      hide *;
      FirstPair(less, S, s, m, n);
      PassHalvesRuns(less, S, s[m + n..]);
      assert |Merge(less, s[..m], s[m..m + n])| == m + n;
      RunsOfBlock(less, Merge(less, s[..m], s[m..m + n]), Pass(less, s[m + n..]));
    } else {
      assert Pass(less, s) == s;
      if s != [] {
        assert s[RunLength(less, s)..] == [];
      }
    }
  }

  lemma PassUnfold<T>(less: (T, T) -> bool, s: seq<T>, m: nat, n: nat)
    requires s != [] && m == RunLength(less, s) && m < |s| && n == RunLength(less, s[m..])
    ensures Pass(less, s) == Merge(less, s[..m], s[m..m + n]) + Pass(less, s[m + n..])
    ensures PassCount(less, s) == 1 + PassCount(less, s[m + n..])
    ensures Runs(less, s) == 2 + Runs(less, s[m + n..])
  {
    hide *;
    PassResultUnfold(less, s, m, n);
    RunsUnfold(less, s, m);
    RunsUnfold(less, s[m..], n);
    assert s[m..][n..] == s[m + n..];
    PassCountUnfold(less, s, m, n);
  }

  lemma PassResultUnfold<T>(less: (T, T) -> bool, s: seq<T>, m: nat, n: nat)
    requires s != [] && m == RunLength(less, s) && m < |s| && n == RunLength(less, s[m..])
    ensures Pass(less, s) == Merge(less, s[..m], s[m..m + n]) + Pass(less, s[m + n..])
  {
    hide RunLength, Merge;
  }

  lemma PassCountUnfold<T>(less: (T, T) -> bool, s: seq<T>, m: nat, n: nat)
    requires s != [] && m == RunLength(less, s) && m < |s| && n == RunLength(less, s[m..])
    ensures PassCount(less, s) == 1 + PassCount(less, s[m + n..])
  {
    hide RunLength;
  }

  lemma RunsUnfold<T>(less: (T, T) -> bool, s: seq<T>, m: nat)
    requires s != [] && m == RunLength(less, s)
    ensures Runs(less, s) == 1 + Runs(less, s[m..])
  {
  }

  /** A pass rearranges stably. */
  lemma {:induction false} PassStable<T>(less: (T, T) -> bool, S: set<T>, s: seq<T>, x: T)
    requires StrictWeakOrder(less, S) && Within(s, S) && x in S
    ensures Class(less, x, Pass(less, s)) == Class(less, x, s)
    decreases |s|
  {
    if s != [] {
      var m := RunLength(less, s);
      if m < |s| {
        var n := RunLength(less, s[m..]);
        var a, b, rest := s[..m], s[m..m + n], s[m + n..];
        FirstPair(less, S, s, m, n);
        ThreeParts(s, m, m + n);
        PassStable(less, S, rest, x);
        MergeStable(less, S, a, b, x);
        ClassConcat(less, x, Merge(less, a, b), Pass(less, rest));
        ClassConcat(less, x, a, b);
        ClassConcat(less, x, a + b, rest);
      }
    }
  }

  lemma {:induction false} PassMultiset<T>(less: (T, T) -> bool, s: seq<T>)
    ensures multiset(Pass(less, s)) == multiset(s)
    decreases |s|
  {
    if s != [] {
      var m := RunLength(less, s);
      if m < |s| {
        var n := RunLength(less, s[m..]);
        PassMultiset(less, s[m + n..]);
        MergeMultiset(less, s[..m], s[m..m + n]);
        ThreeParts(s, m, m + n);
      }
    }
  }

  lemma PassRearranges<T>(less: (T, T) -> bool, S: set<T>, s: seq<T>)
    requires StrictWeakOrder(less, S) && Within(s, S)
    ensures StableRearrangement(less, S, s, Pass(less, s)) && Within(Pass(less, s), S)
  {
    PassMultiset(less, s);
    forall x | x in S ensures Class(less, x, s) == Class(less, x, Pass(less, s)) {
      PassStable(less, S, s, x);
    }
    forall x | x in Pass(less, s) ensures x in S {
      assert x in multiset(Pass(less, s));
      assert x in s;
    }
  }

  lemma RearrangeTwice<T>(less: (T, T) -> bool, S: set<T>, s: seq<T>, t: seq<T>, u: seq<T>)
    requires StableRearrangement(less, S, s, t) && StableRearrangement(less, S, t, u)
    ensures StableRearrangement(less, S, s, u)
  {
    hide Class;
  }

  lemma AtMostOneRun<T>(less: (T, T) -> bool, S: set<T>, s: seq<T>)
    requires StrictWeakOrder(less, S) && Within(s, S) && Runs(less, s) <= 1
    ensures Sorted(less, s)
  {
    if s != [] {
      FirstRunSorted(less, S, s);
      var n := RunLength(less, s);
      assert Runs(less, s[n..]) == 0;
      assert s[..n] == s;
    }
  }

  // ---- a stable sort is unique ---------------------------------------------------------

  /** Sorted and stable leaves no freedom: two such results are the same sequence. */
  lemma {:induction false} StableSortUnique<T>(less: (T, T) -> bool, S: set<T>, s: seq<T>, t: seq<T>)
    requires StrictWeakOrder(less, S) && Within(s, S) && Within(t, S)
    requires Sorted(less, s) && Sorted(less, t) && StableRearrangement(less, S, s, t)
    ensures s == t
  {
    if s == [] {
      assert |multiset(t)| == |t|;
    } else {
      assert |multiset(s)| == |s| && |multiset(t)| == |t|;
      SameHead(less, S, s, t);
      hide Class;
      forall x | x in S ensures Class(less, x, s[1..]) == Class(less, x, t[1..]) {
        ClassTail(less, x, s, t);
      }
      WithinSlices(s, S, 1, 1);
      WithinSlices(t, S, 1, 1);
      assert Sorted(less, s[1..]) && Sorted(less, t[1..]);
      MultisetCons(s);
      MultisetCons(t);
      assert multiset(s[1..]) == multiset(s) - multiset{s[0]} == multiset(t[1..]);
      StableSortUnique(less, S, s[1..], t[1..]);
    }
  }

  lemma ConcatInjective<T>(h: seq<T>, s: seq<T>, t: seq<T>)
    requires h + s == h + t
    ensures s == t
  {
    assert (h + s)[|h|..] == s;
    assert (h + t)[|h|..] == t;
  }

  lemma ClassTail<T>(less: (T, T) -> bool, x: T, s: seq<T>, t: seq<T>)
    requires s != [] && t != [] && s[0] == t[0] && Class(less, x, s) == Class(less, x, t)
    ensures Class(less, x, s[1..]) == Class(less, x, t[1..])
  {
    hide *;
    ClassUncons(less, x, s[0], s[1..], s);
    ClassUncons(less, x, t[0], t[1..], t);
    ConcatInjective(if Equivalent(less, x, s[0]) then [s[0]] else [], Class(less, x, s[1..]), Class(less, x, t[1..]));
  }

  lemma SameHead<T>(less: (T, T) -> bool, S: set<T>, s: seq<T>, t: seq<T>)
    requires StrictWeakOrder(less, S) && Within(s, S) && Within(t, S) && s != [] && t != []
    requires Sorted(less, s) && Sorted(less, t) && StableRearrangement(less, S, s, t)
    ensures s[0] == t[0]
  {
    // Each head is in the other sequence, so neither is less than the other: they share a
    // class, and each is that class's first element.
    assert s[0] in multiset(s) && t[0] in multiset(t);
    assert s[0] in t && t[0] in s;
    assert !less(t[0], s[0]) && !less(s[0], t[0]);
    assert Class(less, s[0], s)[0] == s[0];
    assert Class(less, s[0], t)[0] == t[0];
  }
}
