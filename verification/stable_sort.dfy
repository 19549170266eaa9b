/**
 * Array.prototype.sort with a comparator: a stable sort. The specification
 * is insertion sort as a function on sequences; the method sorts an array
 * in place by the same steps. Both are generic in the comparator, which is
 * what the caller hands to `sort`.
 */
module StableSort {

  /**
   * A comparator the sort can rely on: a positive answer reverses to a
   * negative one, and "may stay in front" is transitive.
   */
  ghost predicate Consistent<T(!new)>(cmp: (T, T) -> int) {
    && (forall a, b :: cmp(a, b) > 0 ==> cmp(b, a) < 0)
    && (forall a, b, c :: cmp(a, b) <= 0 && cmp(b, c) <= 0 ==> cmp(a, c) <= 0)
  }

  /** Every entry may stay in front of every later one. */
  ghost predicate Sorted<T>(cmp: (T, T) -> int, s: seq<T>) {
    forall i, j :: 0 <= i < j < |s| ==> cmp(s[i], s[j]) <= 0
  }

  /**
   * Insert `x` behind every entry of `s` that may stay in front of it,
   * walking from the right.
   */
  function Insert<T>(cmp: (T, T) -> int, x: T, s: seq<T>): seq<T>
    decreases |s|
  {
    if |s| == 0 then [x]
    else if cmp(s[|s| - 1], x) > 0 then Insert(cmp, x, s[..|s| - 1]) + [s[|s| - 1]]
    else s + [x]
  }

  /** The stable sort of `s`: insert each entry, left to right, into the sorted prefix. */
  function SortSpec<T>(cmp: (T, T) -> int, s: seq<T>): seq<T>
    decreases |s|
  {
    if |s| == 0 then [] else Insert(cmp, s[|s| - 1], SortSpec(cmp, s[..|s| - 1]))
  }

  lemma {:induction false} InsertPermutes<T>(cmp: (T, T) -> int, x: T, s: seq<T>)
    ensures multiset(Insert(cmp, x, s)) == multiset(s) + multiset{x}
    decreases |s|
  {
    if |s| > 0 && cmp(s[|s| - 1], x) > 0 {
      InsertPermutes(cmp, x, s[..|s| - 1]);
      assert s == s[..|s| - 1] + [s[|s| - 1]];
    }
  }

  /** Inserting an entry that may stay in front of `y` into entries that all may, keeps that so. */
  lemma {:induction false} InsertBelow<T>(cmp: (T, T) -> int, x: T, s: seq<T>, y: T)
    requires cmp(x, y) <= 0
    requires forall i :: 0 <= i < |s| ==> cmp(s[i], y) <= 0
    ensures forall i :: 0 <= i < |Insert(cmp, x, s)| ==> cmp(Insert(cmp, x, s)[i], y) <= 0
    decreases |s|
  {
    if |s| > 0 && cmp(s[|s| - 1], x) > 0 {
      InsertBelow(cmp, x, s[..|s| - 1], y);
    }
  }

  lemma {:induction false} InsertSorted<T(!new)>(cmp: (T, T) -> int, x: T, s: seq<T>)
    requires Consistent(cmp) && Sorted(cmp, s)
    ensures Sorted(cmp, Insert(cmp, x, s))
    decreases |s|
  {
    if |s| > 0 {
      var last := s[|s| - 1];
      var init := s[..|s| - 1];
      if cmp(last, x) > 0 {
        assert Sorted(cmp, init);
        InsertSorted(cmp, x, init);
        var r := Insert(cmp, x, init);
        assert cmp(x, last) < 0;
        InsertBelow(cmp, x, init, last);
        assert Insert(cmp, x, s) == r + [last];
      } else {
        forall i | 0 <= i < |s| ensures cmp(s[i], x) <= 0 {
          if i < |s| - 1 {
            assert cmp(s[i], last) <= 0;
          }
        }
      }
    }
  }

  /** The sort returns a permutation of its input. */
  lemma {:induction false} SortPermutes<T>(cmp: (T, T) -> int, s: seq<T>)
    ensures multiset(SortSpec(cmp, s)) == multiset(s)
    ensures |SortSpec(cmp, s)| == |s|
    decreases |s|
  {
    if |s| > 0 {
      SortPermutes(cmp, s[..|s| - 1]);
      InsertPermutes(cmp, s[|s| - 1], SortSpec(cmp, s[..|s| - 1]));
      assert s == s[..|s| - 1] + [s[|s| - 1]];
    }
  }

  /** With a consistent comparator the sort returns an ordered list. */
  lemma {:induction false} SortSorts<T(!new)>(cmp: (T, T) -> int, s: seq<T>)
    requires Consistent(cmp)
    ensures Sorted(cmp, SortSpec(cmp, s))
    decreases |s|
  {
    if |s| > 0 {
      SortSorts(cmp, s[..|s| - 1]);
      InsertSorted(cmp, s[|s| - 1], SortSpec(cmp, s[..|s| - 1]));
    }
  }

  /** An ordered list is left exactly as it is. */
  lemma {:induction false} SortKeepsSorted<T>(cmp: (T, T) -> int, s: seq<T>)
    requires Sorted(cmp, s)
    ensures SortSpec(cmp, s) == s
    decreases |s|
  {
    if |s| > 0 {
      var init := s[..|s| - 1];
      assert Sorted(cmp, init);
      SortKeepsSorted(cmp, init);
      if |init| > 0 {
        assert cmp(init[|init| - 1], s[|s| - 1]) <= 0;
      }
      assert init + [s[|s| - 1]] == s;
    }
  }

  /** Sorting an already sorted list changes nothing. */
  lemma SortIdempotent<T(!new)>(cmp: (T, T) -> int, s: seq<T>)
    requires Consistent(cmp)
    ensures SortSpec(cmp, SortSpec(cmp, s)) == SortSpec(cmp, s)
  {
    SortSorts(cmp, s);
    SortKeepsSorted(cmp, SortSpec(cmp, s));
  }

  /** Stepping `x` left past one greater entry, as the inner loop does. */
  lemma InsertStep<T>(cmp: (T, T) -> int, x: T, p: seq<T>, j: int)
    requires 0 < j <= |p| && cmp(p[j - 1], x) > 0
    ensures Insert(cmp, x, p[..j]) + p[j..] == Insert(cmp, x, p[..j - 1]) + p[j - 1..]
  {
    assert p[..j][..j - 1] == p[..j - 1];
    assert p[j - 1..] == [p[j - 1]] + p[j..];
  }

  /** Where the inner loop stops, `x` goes right there. */
  lemma InsertStop<T>(cmp: (T, T) -> int, x: T, p: seq<T>, j: int)
    requires 0 <= j <= |p| && (j == 0 || cmp(p[j - 1], x) <= 0)
    ensures Insert(cmp, x, p[..j]) + p[j..] == p[..j] + [x] + p[j..]
  {
  }

  lemma SortSpecSnoc<T>(cmp: (T, T) -> int, s: seq<T>, i: int)
    requires 0 <= i < |s|
    ensures SortSpec(cmp, s[..i + 1]) == Insert(cmp, s[i], SortSpec(cmp, s[..i]))
  {
    assert s[..i + 1][..i] == s[..i];
  }

  /** After one swap of the inner loop, the hole holding `x` has moved one place left. */
  lemma ShiftStep<T>(p: seq<T>, x: T, rest: seq<T>, j: int, before: seq<T>, after: seq<T>)
    requires 0 < j <= |p|
    requires before == p[..j] + [x] + p[j..] + rest
    requires after == before[j - 1 := x][j := p[j - 1]]
    ensures after == p[..j - 1] + [x] + p[j - 1..] + rest
  {
  }

  /**
   * One pass of the insertion sort: the entry at `i` moves left past every
   * greater entry of the sorted prefix in front of it.
   */
  method InsertInPlace<T>(cmp: (T, T) -> int, a: array<T>, i: int)
    requires 0 <= i < a.Length
    modifies a
    ensures a[..i + 1] == Insert(cmp, old(a[i]), old(a[..i]))
    ensures a[i + 1..] == old(a[i + 1..])
  {
    ghost var p := a[..i];
    ghost var rest := a[i + 1..];
    var x := a[i];
    var j := i;
    assert p[..j] == p && p[j..] == [];
    assert a[..] == p[..j] + [x] + p[j..] + rest;
    while j > 0 && cmp(a[j - 1], x) > 0
      invariant 0 <= j <= i
      invariant a[..] == p[..j] + [x] + p[j..] + rest
      invariant Insert(cmp, x, p) == Insert(cmp, x, p[..j]) + p[j..]
    {
      InsertStep(cmp, x, p, j);
      ghost var before := a[..];
      var y := a[j - 1];
      a[j - 1] := x;
      a[j] := y;
      ShiftStep(p, x, rest, j, before, a[..]);
      j := j - 1;
    }
    InsertStop(cmp, x, p, j);
    assert a[..] == (p[..j] + [x] + p[j..]) + rest;
    assert a[..i + 1] == p[..j] + [x] + p[j..];
  }

  /** `a.sort(cmp)`: in place, the array ends up holding the stable sort of its old contents. */
  method SortInPlace<T>(cmp: (T, T) -> int, a: array<T>)
    modifies a
    ensures a[..] == SortSpec(cmp, old(a[..]))
  {
    ghost var original := a[..];
    var i := 0;
    while i < a.Length
      invariant 0 <= i <= a.Length
      invariant a[..i] == SortSpec(cmp, original[..i])
      invariant a[i..] == original[i..]
    {
      assert a[i] == original[i];
      SortSpecSnoc(cmp, original, i);
      InsertInPlace(cmp, a, i);
      i := i + 1;
    }
    assert original[..a.Length] == original;
  }
}
