/** Stable sorting, as `Array.prototype.sort` does it: a comparator-based
    insertion sort on sequences, its in-place counterpart on arrays, and
    the facts the rest of the model relies on (sorted, a permutation,
    idempotent, stable). */
module Sorting {
  import opened Seqs

  /** A comparator `le` (less-or-equal) that is a consistent total preorder. */
  ghost predicate TotalPreorder<T(!new)>(le: (T, T) -> bool) {
    && (forall x, y :: le(x, y) || le(y, x))
    && (forall x, y, z :: le(x, y) && le(y, z) ==> le(x, z))
  }

  predicate Sorted<T>(s: seq<T>, le: (T, T) -> bool) {
    forall i, j :: 0 <= i < j < |s| ==> le(s[i], s[j])
  }

  /** The comparator that orders by an integer key (`(a, b) => key(a) - key(b)`). */
  function ByKey<T>(key: T -> int): (T, T) -> bool {
    (a: T, b: T) => key(a) <= key(b)
  }

  lemma ByKeyTotal<T(!new)>(key: T -> int)
    ensures TotalPreorder(ByKey(key))
  {
  }

  /** Inserts `x` after the last element not greater than it. */
  function Insert<T>(s: seq<T>, x: T, le: (T, T) -> bool): (r: seq<T>)
    ensures |r| == |s| + 1
  {
    if s == [] then [x]
    else if le(s[|s| - 1], x) then s + [x]
    else Insert(s[..|s| - 1], x, le) + [s[|s| - 1]]
  }

  /** The stable sort of `s` by `le`. */
  function InsertionSort<T>(s: seq<T>, le: (T, T) -> bool): (r: seq<T>)
    ensures |r| == |s|
  {
    if s == [] then [] else Insert(InsertionSort(s[..|s| - 1], le), s[|s| - 1], le)
  }

  lemma {:induction false} InsertMultiset<T>(s: seq<T>, x: T, le: (T, T) -> bool)
    ensures multiset(Insert(s, x, le)) == multiset(s) + multiset{x}
  {
    if s != [] && !le(s[|s| - 1], x) {
      InsertMultiset(s[..|s| - 1], x, le);
      assert s == s[..|s| - 1] + [s[|s| - 1]];
    }
  }

  /** The result of the sort is a permutation of its input. */
  lemma {:induction false} InsertionSortPermutes<T>(s: seq<T>, le: (T, T) -> bool)
    ensures multiset(InsertionSort(s, le)) == multiset(s)
  {
    if s != [] {
      InsertionSortPermutes(s[..|s| - 1], le);
      InsertMultiset(InsertionSort(s[..|s| - 1], le), s[|s| - 1], le);
      assert s == s[..|s| - 1] + [s[|s| - 1]];
    }
  }

  lemma {:induction false} InsertSorted<T(!new)>(s: seq<T>, x: T, le: (T, T) -> bool)
    requires TotalPreorder(le) && Sorted(s, le)
    ensures Sorted(Insert(s, x, le), le)
  {
    if s != [] && !le(s[|s| - 1], x) {
      var init, last := s[..|s| - 1], s[|s| - 1];
      InsertSorted(init, x, le);
      InsertMultiset(init, x, le);
      var r := Insert(init, x, le);
      forall y | y in multiset(r) ensures le(y, last) {
        if y == x {
        } else {
          assert y in multiset(init);
          var k :| 0 <= k < |init| && init[k] == y;
        }
      }
      forall i | 0 <= i < |r| ensures le(r[i], last) {
        assert r[i] in multiset(r);
      }
    }
  }

  /** The result of the sort is ordered by `le`. */
  lemma {:induction false} InsertionSortSorted<T(!new)>(s: seq<T>, le: (T, T) -> bool)
    requires TotalPreorder(le)
    ensures Sorted(InsertionSort(s, le), le)
  {
    if s != [] {
      InsertionSortSorted(s[..|s| - 1], le);
      InsertSorted(InsertionSort(s[..|s| - 1], le), s[|s| - 1], le);
    }
  }

  /** Sorting an ordered sequence leaves it as it is; in particular sorting
      twice is sorting once. */
  lemma {:induction false} InsertionSortOfSorted<T(!new)>(s: seq<T>, le: (T, T) -> bool)
    requires Sorted(s, le)
    ensures InsertionSort(s, le) == s
  {
    if s != [] {
      var init := s[..|s| - 1];
      assert Sorted(init, le);
      InsertionSortOfSorted(init, le);
      if |s| > 1 {
        assert le(init[|init| - 1], s[|s| - 1]);
      }
    }
  }

  lemma InsertionSortIdempotent<T(!new)>(s: seq<T>, le: (T, T) -> bool)
    requires TotalPreorder(le)
    ensures InsertionSort(InsertionSort(s, le), le) == InsertionSort(s, le)
  {
    InsertionSortSorted(s, le);
    InsertionSortOfSorted(InsertionSort(s, le), le);
  }

  /** Elements equivalent to `c` under `le`. */
  function EquivalentTo<T>(le: (T, T) -> bool, c: T): T -> bool {
    (y: T) => le(y, c) && le(c, y)
  }

  lemma {:induction false} InsertStable<T(!new)>(s: seq<T>, x: T, le: (T, T) -> bool, c: T)
    requires TotalPreorder(le)
    ensures Filter(Insert(s, x, le), EquivalentTo(le, c))
         == Filter(s, EquivalentTo(le, c)) + Filter([x], EquivalentTo(le, c))
  {
    var p := EquivalentTo(le, c);
    if s == [] {
    } else if le(s[|s| - 1], x) {
      FilterAppend(s, [x], p);
    } else {
      var init, last := s[..|s| - 1], s[|s| - 1];
      calc {
        Filter(Insert(s, x, le), p);
        Filter(Insert(init, x, le) + [last], p);
        { FilterAppend(Insert(init, x, le), [last], p); }
        Filter(Insert(init, x, le), p) + Filter([last], p);
        { InsertStable(init, x, le, c); }
        Filter(init, p) + Filter([x], p) + Filter([last], p);
        { NotBothEquivalent(le, x, last, c); }
        Filter(init, p) + Filter([last], p) + Filter([x], p);
        { FilterAppend(init, [last], p); assert s == init + [last]; }
        Filter(s, p) + Filter([x], p);
      }
    }
  }

  /** An element strictly greater than another is not in the same class. */
  lemma NotBothEquivalent<T(!new)>(le: (T, T) -> bool, x: T, y: T, c: T)
    requires TotalPreorder(le) && !le(y, x)
    ensures !(EquivalentTo(le, c)(x) && EquivalentTo(le, c)(y))
  {
  }

  lemma {:induction false} FilterAppend<T(!new)>(a: seq<T>, b: seq<T>, p: T -> bool)
    ensures Filter(a + b, p) == Filter(a, p) + Filter(b, p)
  {
    if a != [] {
      assert (a + b)[1..] == a[1..] + b;
      FilterAppend(a[1..], b, p);
    } else {
      assert a + b == b;
    }
  }

  /** Stability: among mutually equivalent elements the input order is kept. */
  lemma {:induction false} InsertionSortStable<T(!new)>(s: seq<T>, le: (T, T) -> bool, c: T)
    requires TotalPreorder(le)
    ensures Filter(InsertionSort(s, le), EquivalentTo(le, c)) == Filter(s, EquivalentTo(le, c))
  {
    if s != [] {
      var init := s[..|s| - 1];
      InsertionSortStable(init, le, c);
      InsertStable(InsertionSort(init, le), s[|s| - 1], le, c);
      assert s == init + [s[|s| - 1]];
      FilterAppend(init, [s[|s| - 1]], EquivalentTo(le, c));
    }
  }

  /** Where the element goes when inserted by shifting greater elements right. */
  lemma {:induction false} InsertAt<T>(s: seq<T>, x: T, le: (T, T) -> bool, j: nat)
    requires j <= |s|
    requires j == 0 || le(s[j - 1], x)
    requires forall k :: j <= k < |s| ==> !le(s[k], x)
    ensures Insert(s, x, le) == s[..j] + [x] + s[j..]
    decreases |s| - j
  {
    if j < |s| {
      var init, last := s[..|s| - 1], s[|s| - 1];
      assert !le(last, x);
      assert Insert(s, x, le) == Insert(init, x, le) + [last];
      assert forall k :: j <= k < |init| ==> !le(init[k], x);
      assert j == 0 || le(init[j - 1], x);
      InsertAt(init, x, le, j);
      assert init[..j] == s[..j];
      assert init[j..] + [last] == s[j..];
    }
  }

  /** One step of the in-place sort: moves `a[i]` left past the greater
      elements of the sorted prefix `a[..i]`. */
  method InsertInPlace<T>(a: array<T>, i: nat, le: (T, T) -> bool)
    requires i < a.Length
    modifies a
    ensures a[..i + 1] == Insert(old(a[..i]), old(a[i]), le)
    ensures a[i + 1..] == old(a[i + 1..])
  {
    ghost var sorted := a[..i];
    var x := a[i];
    var j := i;
    while j > 0 && !le(a[j - 1], x)
      invariant 0 <= j <= i
      invariant a[..j] == sorted[..j]
      invariant a[j + 1..i + 1] == sorted[j..i]
      invariant forall k :: j <= k < i ==> !le(sorted[k], x)
      invariant a[i + 1..] == old(a[i + 1..])
    {
      a[j] := a[j - 1];
      j := j - 1;
    }
    a[j] := x;
    InsertAt(sorted, x, le, j);
    assert a[..i + 1] == sorted[..j] + [x] + sorted[j..];
  }

  /** The in-place sort of `Array.prototype.sort`. */
  method SortInPlace<T>(a: array<T>, le: (T, T) -> bool)
    modifies a
    ensures a[..] == InsertionSort(old(a[..]), le)
  {
    ghost var s := a[..];
    var i := 0;
    while i < a.Length
      invariant 0 <= i <= a.Length
      invariant a[..i] == InsertionSort(s[..i], le)
      invariant a[i..] == s[i..]
    {
      InsertInPlace(a, i, le);
      assert s[..i + 1][..i] == s[..i];
      i := i + 1;
    }
    assert s[..a.Length] == s;
  }
}
