// sort.Stable over a caller's Less, as both byOffset orderings of child
// nodes use it (protocol/types.go and protocol/native/objecttonoder.go).
// The model is an insertion sort that places each element after every
// element it is not less than, which is what stability asks for.
module Sorting {

  /** Inserts x into s after the last element x is not less than, scanning from the back. */
  function Insert<T>(s: seq<T>, x: T, less: (T, T) -> bool): (r: seq<T>)
    ensures |r| == |s| + 1
  {
    if s == [] then [x]
    else if less(x, s[|s| - 1]) then Insert(s[..|s| - 1], x, less) + [s[|s| - 1]]
    else s + [x]
  }

  /** sort.Stable(s) under less. */
  function SortStable<T>(s: seq<T>, less: (T, T) -> bool): (r: seq<T>)
    ensures |r| == |s|
  {
    if s == [] then [] else Insert(SortStable(s[..|s| - 1], less), s[|s| - 1], less)
  }

  /** No element is less than the one before it. */
  predicate Ordered<T>(s: seq<T>, less: (T, T) -> bool)
  {
    forall i :: 0 <= i < |s| - 1 ==> !less(s[i + 1], s[i])
  }

  ghost predicate Asymmetric<T(!new)>(less: (T, T) -> bool)
  {
    forall a, b :: less(a, b) ==> !less(b, a)
  }

  lemma {:induction false} InsertPermutes<T>(s: seq<T>, x: T, less: (T, T) -> bool)
    ensures multiset(Insert(s, x, less)) == multiset(s) + multiset{x}
    decreases |s|
  {
    if s != [] && less(x, s[|s| - 1]) {
      var init := s[..|s| - 1];
      InsertPermutes(init, x, less);
      assert s == init + [s[|s| - 1]];
    }
  }

  /** Inserting into an ordered sequence keeps it ordered; the new last element is x or the old last one. */
  lemma {:induction false} InsertOrdered<T(!new)>(s: seq<T>, x: T, less: (T, T) -> bool)
    requires Asymmetric(less) && Ordered(s, less)
    ensures Ordered(Insert(s, x, less), less)
    ensures var r := Insert(s, x, less); r[|r| - 1] == x || (s != [] && r[|r| - 1] == s[|s| - 1])
    decreases |s|
  {
    if s != [] && less(x, s[|s| - 1]) {
      var init := s[..|s| - 1];
      var last := s[|s| - 1];
      assert Ordered(init, less) by {
        forall i | 0 <= i < |init| - 1 ensures !less(init[i + 1], init[i]) {
          assert init[i + 1] == s[i + 1] && init[i] == s[i];
        }
      }
      InsertOrdered(init, x, less);
      var r0 := Insert(init, x, less);
      var r := r0 + [last];
      assert !less(last, r0[|r0| - 1]) by {
        if r0[|r0| - 1] == x {
        } else {
          assert r0[|r0| - 1] == init[|init| - 1] == s[|s| - 2];
        }
      }
      forall i | 0 <= i < |r| - 1 ensures !less(r[i + 1], r[i]) {
        if i < |r0| - 1 {
          assert r[i + 1] == r0[i + 1] && r[i] == r0[i];
        }
      }
    }
  }

  /** sort.Stable returns a permutation of its input. */
  lemma {:induction false} SortStablePermutes<T>(s: seq<T>, less: (T, T) -> bool)
    ensures multiset(SortStable(s, less)) == multiset(s)
    decreases |s|
  {
    if s != [] {
      var init := s[..|s| - 1];
      SortStablePermutes(init, less);
      InsertPermutes(SortStable(init, less), s[|s| - 1], less);
      assert s == init + [s[|s| - 1]];
    }
  }

  /** sort.Stable under an asymmetric less returns an ordered sequence. */
  lemma {:induction false} SortStableOrdered<T(!new)>(s: seq<T>, less: (T, T) -> bool)
    requires Asymmetric(less)
    ensures Ordered(SortStable(s, less), less)
    decreases |s|
  {
    if s != [] {
      SortStableOrdered(s[..|s| - 1], less);
      InsertOrdered(SortStable(s[..|s| - 1], less), s[|s| - 1], less);
    }
  }

  /** Stability: an input that is already ordered is returned as it is. */
  lemma {:induction false} SortStableKeepsOrdered<T>(s: seq<T>, less: (T, T) -> bool)
    requires Ordered(s, less)
    ensures SortStable(s, less) == s
    decreases |s|
  {
    if s != [] {
      var init := s[..|s| - 1];
      assert Ordered(init, less) by {
        forall i | 0 <= i < |init| - 1 ensures !less(init[i + 1], init[i]) {
          assert init[i + 1] == s[i + 1] && init[i] == s[i];
        }
      }
      SortStableKeepsOrdered(init, less);
      if |s| >= 2 {
        assert !less(s[|s| - 1], init[|init| - 1]);
      }
      assert s == init + [s[|s| - 1]];
    }
  }

  /**
   * When every element outside p is less than every element in p, an
   * ordered sequence has all elements outside p before those in p.
   */
  lemma {:induction false} OrderedPartitions<T>(s: seq<T>, less: (T, T) -> bool, p: T -> bool, i: int, j: int)
    requires Ordered(s, less)
    requires forall a, b :: !p(a) && p(b) ==> less(a, b)
    requires 0 <= i <= j < |s| && p(s[i])
    ensures p(s[j])
    decreases j - i
  {
    if i < j {
      assert !less(s[i + 1], s[i]);
      OrderedPartitions(s, less, p, i + 1, j);
    }
  }
}
