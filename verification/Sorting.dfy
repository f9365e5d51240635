/**
 Ordering. StableSort stands for Go's sort.SliceStable and sort.Slice; InsertionSort is the
 in-place loop of backend/internal/alert/notifier_webhook.go:119-124 over any element type.
 */
module Sorting {
  import opened Totals

  ghost predicate StrictWeakOrder<T(!new)>(less: (T, T) -> bool) {
    && (forall a :: !less(a, a))
    && (forall a, b, c :: less(a, b) && less(b, c) ==> less(a, c))
    && (forall a, b, c :: !less(a, b) && !less(b, c) ==> !less(a, c))
  }

  ghost predicate StrictTotalOrder<T(!new)>(less: (T, T) -> bool) {
    && StrictWeakOrder(less)
    && (forall a, b :: !less(a, b) && !less(b, a) ==> a == b)
  }

  ghost predicate Sorted<T>(s: seq<T>, less: (T, T) -> bool) {
    forall i, j :: 0 <= i < j < |s| ==> !less(s[j], s[i])
  }

  /** Puts an element after everything it is not less than. */
  function Insert<T>(s: seq<T>, x: T, less: (T, T) -> bool): seq<T> {
    if s == [] || !less(x, s[|s| - 1]) then s + [x]
    else Insert(s[..|s| - 1], x, less) + [s[|s| - 1]]
  }

  function StableSort<T>(s: seq<T>, less: (T, T) -> bool): seq<T> {
    if s == [] then [] else Insert(StableSort(s[..|s| - 1], less), s[|s| - 1], less)
  }

  lemma {:induction false} InsertAdds<T>(s: seq<T>, x: T, less: (T, T) -> bool)
    ensures multiset(Insert(s, x, less)) == multiset(s) + multiset{x}
    ensures |Insert(s, x, less)| == |s| + 1
  {
    if s != [] && less(x, s[|s| - 1]) {
      InsertAdds(s[..|s| - 1], x, less);
      assert s == s[..|s| - 1] + [s[|s| - 1]];
    }
  }

  lemma InsertElements<T>(s: seq<T>, x: T, less: (T, T) -> bool)
    ensures forall y :: y in Insert(s, x, less) ==> y == x || y in s
  {
    InsertAdds(s, x, less);
    forall y | y in Insert(s, x, less)
      ensures y == x || y in s
    {
      assert y in multiset(Insert(s, x, less));
    }
  }

  lemma NothingBelow<T(!new)>(s: seq<T>, x: T, less: (T, T) -> bool)
    requires StrictWeakOrder(less) && Sorted(s, less) && s != [] && !less(x, s[|s| - 1])
    ensures forall y :: y in s ==> !less(x, y)
  {
    forall i | 0 <= i < |s|
      ensures !less(x, s[i])
    {
      assert i < |s| - 1 ==> !less(s[|s| - 1], s[i]);
    }
  }

  lemma {:induction false} InsertSorted<T(!new)>(s: seq<T>, x: T, less: (T, T) -> bool)
    requires StrictWeakOrder(less) && Sorted(s, less)
    ensures Sorted(Insert(s, x, less), less)
  {
    if s != [] {
      var n := |s| - 1;
      if less(x, s[n]) {
        InsertSorted(s[..n], x, less);
        InsertElements(s[..n], x, less);
        assert !less(s[n], x);
        SortedAppend(Insert(s[..n], x, less), s[n], less);
      } else {
        NothingBelow(s, x, less);
        SortedAppend(s, x, less);
      }
    }
  }

  lemma SortedAppend<T>(s: seq<T>, x: T, less: (T, T) -> bool)
    requires Sorted(s, less) && forall y :: y in s ==> !less(x, y)
    ensures Sorted(s + [x], less)
  {
  }

  /** Sorting rearranges, and puts in order. */
  lemma {:induction false} StableSortSorts<T(!new)>(s: seq<T>, less: (T, T) -> bool)
    ensures multiset(StableSort(s, less)) == multiset(s)
    ensures |StableSort(s, less)| == |s|
    ensures StrictWeakOrder(less) ==> Sorted(StableSort(s, less), less)
  {
    if s != [] {
      var n := |s| - 1;
      StableSortSorts(s[..n], less);
      InsertAdds(StableSort(s[..n], less), s[n], less);
      if StrictWeakOrder(less) {
        InsertSorted(StableSort(s[..n], less), s[n], less);
      }
      assert s == s[..n] + [s[n]];
    }
  }

  predicate Tied<T>(x: T, y: T, less: (T, T) -> bool) {
    !less(x, y) && !less(y, x)
  }

  /** Different elements are never tied. */
  ghost predicate TiesAreEqual<T>(s: seq<T>, less: (T, T) -> bool) {
    forall x, y :: x in s && y in s && Tied(x, y, less) ==> x == y
  }

  /** Elements that do not tie have one sorted arrangement. */
  lemma {:induction false} SortedIsUnique<T(!new)>(s: seq<T>, t: seq<T>, less: (T, T) -> bool)
    requires StrictWeakOrder(less) && TiesAreEqual(s, less) && Sorted(s, less) && Sorted(t, less)
    requires multiset(s) == multiset(t)
    ensures s == t
  {
    SameSize(s, t);
    if s != [] {
      var n := |s| - 1;
      LastIsGreatest(s, t, less);
      SameRest(s, t);
      SortedPrefix(s, n, less);
      SortedPrefix(t, n, less);
      TiesInPrefix(s, n, less);
      SortedIsUnique(s[..n], t[..n], less);
    }
  }

  lemma SameSize<T>(s: seq<T>, t: seq<T>)
    requires multiset(s) == multiset(t)
    ensures |s| == |t|
  {
    assert |s| == |multiset(s)| == |t|;
  }

  lemma SameRest<T>(s: seq<T>, t: seq<T>)
    requires multiset(s) == multiset(t) && |s| == |t| > 0 && s[|s| - 1] == t[|t| - 1]
    ensures multiset(s[..|s| - 1]) == multiset(t[..|t| - 1])
    ensures s[..|s| - 1] == t[..|t| - 1] ==> s == t
  {
    var n := |s| - 1;
    assert s == s[..n] + [s[n]];
    assert t == t[..n] + [t[n]];
    assert multiset(s[..n]) == multiset(s) - multiset{s[n]};
    assert multiset(t[..n]) == multiset(t) - multiset{t[n]};
  }

  lemma SortedPrefix<T>(s: seq<T>, n: nat, less: (T, T) -> bool)
    requires n <= |s| && Sorted(s, less)
    ensures Sorted(s[..n], less)
  {
  }

  lemma TiesInPrefix<T>(s: seq<T>, n: nat, less: (T, T) -> bool)
    requires n <= |s| && TiesAreEqual(s, less)
    ensures TiesAreEqual(s[..n], less)
  {
    assert forall x :: x in s[..n] ==> x in s;
  }

  lemma LastIsGreatest<T(!new)>(s: seq<T>, t: seq<T>, less: (T, T) -> bool)
    requires StrictWeakOrder(less) && TiesAreEqual(s, less) && Sorted(s, less) && Sorted(t, less)
    requires multiset(s) == multiset(t) && |s| == |t| > 0
    ensures s[|s| - 1] == t[|t| - 1]
  {
    var a, b := s[|s| - 1], t[|t| - 1];
    assert a in multiset(t) && b in multiset(s);
    var i :| 0 <= i < |t| && t[i] == a;
    var j :| 0 <= j < |s| && s[j] == b;
    assert a == b || Tied(a, b, less);
  }

  lemma SortLast<T>(s: seq<T>, x: T, less: (T, T) -> bool)
    ensures StableSort(s + [x], less) == Insert(StableSort(s, less), x, less)
  {
    assert (s + [x])[..|s|] == s;
  }

  lemma SortSingle<T>(x: T, less: (T, T) -> bool)
    ensures StableSort([x], less) == [x]
  {
    SortLast([], x, less);
    assert [] + [x] == [x];
  }

  lemma InsertPair<T>(a: T, b: T, less: (T, T) -> bool)
    requires less(a, b) && !less(b, a)
    ensures Insert([a], b, less) == [a, b] == Insert([b], a, less)
  {
    assert [b][..0] == [];
    assert Insert([], a, less) == [a];
  }

  lemma SortPair<T>(a: T, b: T, less: (T, T) -> bool)
    requires less(a, b) && !less(b, a)
    ensures StableSort([a, b], less) == [a, b] == StableSort([b, a], less)
  {
    SortSingle(a, less);
    SortSingle(b, less);
    SortLast([a], b, less);
    SortLast([b], a, less);
    InsertPair(a, b, less);
    assert [a] + [b] == [a, b] && [b] + [a] == [b, a];
  }

  // ----- Stability, and what it costs -----

  /** The elements tied with one, in the order they stand. */
  function TiedWith<T>(s: seq<T>, x: T, less: (T, T) -> bool): seq<T> {
    if s == [] then []
    else
      var n := |s| - 1;
      if Tied(s[n], x, less) then TiedWith(s[..n], x, less) + [s[n]] else TiedWith(s[..n], x, less)
  }

  lemma TiedOneMore<T>(s: seq<T>, last: T, x: T, less: (T, T) -> bool)
    ensures TiedWith(s + [last], x, less) ==
            if Tied(last, x, less) then TiedWith(s, x, less) + [last] else TiedWith(s, x, less)
  {
    assert (s + [last])[..|s|] == s;
  }

  lemma NotTiedAbove<T(!new)>(x: T, above: T, y: T, less: (T, T) -> bool)
    requires StrictWeakOrder(less) && less(x, above)
    ensures !(Tied(x, y, less) && Tied(above, y, less))
  {
  }

  lemma {:induction false} InsertIsStable<T(!new)>(s: seq<T>, x: T, y: T, less: (T, T) -> bool)
    requires StrictWeakOrder(less)
    ensures TiedWith(Insert(s, x, less), y, less) == TiedWith(s + [x], y, less)
  {
    TiedOneMore(s, x, y, less);
    if s != [] && less(x, s[|s| - 1]) {
      var n := |s| - 1;
      InsertIsStable(s[..n], x, y, less);
      TiedOneMore(s[..n], x, y, less);
      TiedOneMore(Insert(s[..n], x, less), s[n], y, less);
      NotTiedAbove(x, s[n], y, less);
    }
  }

  /** Sorting keeps tied elements in the order they came in. */
  lemma {:induction false} StableSortIsStable<T(!new)>(s: seq<T>, y: T, less: (T, T) -> bool)
    requires StrictWeakOrder(less)
    ensures TiedWith(StableSort(s, less), y, less) == TiedWith(s, y, less)
  {
    if s != [] {
      var n := |s| - 1;
      StableSortIsStable(s[..n], y, less);
      InsertIsStable(StableSort(s[..n], less), s[n], y, less);
      TiedOneMore(StableSort(s[..n], less), s[n], y, less);
    }
  }

  lemma {:induction false} TiedStart<T>(first: seq<T>, rest: seq<T>, x: T, less: (T, T) -> bool)
    ensures TiedWith(first + rest, x, less) == TiedWith(first, x, less) + TiedWith(rest, x, less)
    decreases |rest|
  {
    if rest == [] {
      assert first + rest == first;
    } else {
      TiedStart(first, rest[..|rest| - 1], x, less);
      TiedOneMore(first + rest[..|rest| - 1], rest[|rest| - 1], x, less);
      AppendLast(first, rest);
    }
  }

  lemma TiedPair<T>(x: T, y: T, less: (T, T) -> bool)
    requires Tied(x, x, less) && Tied(x, y, less)
    ensures TiedWith([x, y], x, less) == [x, y] && TiedWith([y, x], x, less) == [y, x]
  {
    assert [x, y] == [x] + [y] && [y, x] == [y] + [x];
    TiedOneMore([x], y, x, less);
    TiedOneMore([y], x, x, less);
    TiedOneMore([], x, x, less);
    TiedOneMore([], y, x, less);
    assert [] + [x] == [x] && [] + [y] == [y];
  }

  lemma FirstDiffers<T>(x: T, y: T, a: seq<T>)
    requires x != y
    ensures [x, y] + a != [y, x] + a
  {
    assert ([x, y] + a)[0] == x && ([y, x] + a)[0] == y;
  }

  /** Two different tied elements in front come out in the order they went in. */
  lemma TiedShow<T(!new)>(x: T, y: T, rest: seq<T>, less: (T, T) -> bool)
    requires StrictWeakOrder(less) && Tied(x, y, less) && x != y
    ensures StableSort([x, y] + rest, less) != StableSort([y, x] + rest, less)
  {
    StableSortIsStable([x, y] + rest, x, less);
    StableSortIsStable([y, x] + rest, x, less);
    TiedStart([x, y], rest, x, less);
    TiedStart([y, x], rest, x, less);
    TiedPair(x, y, less);
    FirstDiffers(x, y, TiedWith(rest, x, less));
  }

  /** Any two of the elements can be brought to the front. */
  lemma BringForward<T>(s: seq<T>, x: T, y: T) returns (rest: seq<T>)
    requires x in s && y in s && x != y
    ensures multiset([x, y] + rest) == multiset([y, x] + rest) == multiset(s)
  {
    var i :| 0 <= i < |s| && s[i] == x;
    var others := Without(s, i);
    MultisetWithout(s, i);
    assert y in multiset(others);
    var j :| 0 <= j < |others| && others[j] == y;
    rest := Without(others, j);
    MultisetWithout(others, j);
    PairInFront(x, y, rest);
  }

  lemma PairInFront<T>(x: T, y: T, rest: seq<T>)
    ensures multiset([x, y] + rest) == multiset([y, x] + rest) == multiset(rest) + multiset{y} + multiset{x}
  {
    assert multiset([x, y] + rest) == multiset([x, y]) + multiset(rest);
    assert multiset([y, x] + rest) == multiset([y, x]) + multiset(rest);
  }

  /** However the elements are arranged, sorting them gives the same. */
  ghost predicate SortsAlike<T(!new)>(s: seq<T>, less: (T, T) -> bool) {
    forall t :: multiset(t) == multiset(s) ==> StableSort(t, less) == StableSort(s, less)
  }

  lemma SortForgetsOrder<T(!new)>(s: seq<T>, t: seq<T>, less: (T, T) -> bool)
    requires StrictWeakOrder(less) && TiesAreEqual(s, less) && multiset(s) == multiset(t)
    ensures StableSort(s, less) == StableSort(t, less)
  {
    StableSortSorts(s, less);
    StableSortSorts(t, less);
    assert forall x :: x in StableSort(s, less) ==> x in multiset(s);
    SortedIsUnique(StableSort(s, less), StableSort(t, less), less);
  }

  lemma NoTiesSortAlike<T(!new)>(s: seq<T>, less: (T, T) -> bool)
    requires StrictWeakOrder(less) && TiesAreEqual(s, less)
    ensures SortsAlike(s, less)
  {
    forall t | multiset(t) == multiset(s)
      ensures StableSort(t, less) == StableSort(s, less)
    {
      SortForgetsOrder(s, t, less);
    }
  }

  lemma SortsApart<T(!new)>(s: seq<T>, a: seq<T>, b: seq<T>, less: (T, T) -> bool)
    requires multiset(a) == multiset(b) == multiset(s)
    requires StableSort(a, less) != StableSort(b, less)
    ensures !SortsAlike(s, less)
  {
  }

  /** Sorting forgets the order the elements came in exactly when no two different ones are tied. */
  lemma SortsAlikeIffNoTies<T(!new)>(s: seq<T>, less: (T, T) -> bool)
    requires StrictWeakOrder(less)
    ensures SortsAlike(s, less) <==> TiesAreEqual(s, less)
  {
    if TiesAreEqual(s, less) {
      NoTiesSortAlike(s, less);
    } else {
      var x, y :| x in s && y in s && Tied(x, y, less) && x != y;
      var rest := BringForward(s, x, y);
      TiedShow(x, y, rest, less);
      SortsApart(s, [x, y] + rest, [y, x] + rest, less);
    }
  }

  ghost predicate Ascending<T>(s: seq<T>, less: (T, T) -> bool) {
    forall i, j :: 0 <= i < j < |s| ==> less(s[i], s[j])
  }

  lemma Asymmetric<T(!new)>(less: (T, T) -> bool, a: T, b: T)
    requires StrictWeakOrder(less) && less(a, b)
    ensures !less(b, a) && a != b
  {
  }

  lemma AscendingSameLast<T(!new)>(s: seq<T>, t: seq<T>, less: (T, T) -> bool)
    requires StrictWeakOrder(less) && Ascending(s, less) && Ascending(t, less)
    requires s != [] && t != [] && s[|s| - 1] in t && t[|t| - 1] in s
    ensures s[|s| - 1] == t[|t| - 1]
  {
    var a, b := s[|s| - 1], t[|t| - 1];
    if a != b {
      assert less(b, a);
      assert less(a, b);
      Asymmetric(less, a, b);
    }
  }

  lemma AscendingInit<T(!new)>(s: seq<T>, less: (T, T) -> bool)
    requires StrictWeakOrder(less) && Ascending(s, less) && s != []
    ensures Ascending(s[..|s| - 1], less)
    ensures forall x :: x in s[..|s| - 1] <==> x in s && x != s[|s| - 1]
  {
    var n := |s| - 1;
    forall i | 0 <= i < n
      ensures s[i] != s[n]
    {
      Asymmetric(less, s[i], s[n]);
    }
  }

  lemma FirstIsIn<T>(s: seq<T>)
    ensures s != [] ==> s[0] in s
  {
  }

  lemma SameRemainder<T>(s: seq<T>, a: seq<T>, t: seq<T>, b: seq<T>, last: T)
    requires forall x :: x in s <==> x in t
    requires forall x :: x in a <==> x in s && x != last
    requires forall x :: x in b <==> x in t && x != last
    ensures forall x :: x in a <==> x in b
  {
  }

  /** Strictly ascending sequences of the same elements are the same sequence. */
  lemma {:induction false} AscendingIsUnique<T(!new)>(s: seq<T>, t: seq<T>, less: (T, T) -> bool)
    requires StrictWeakOrder(less) && Ascending(s, less) && Ascending(t, less)
    requires forall x :: x in s <==> x in t
    ensures s == t
    decreases |s|
  {
    if s == [] {
      FirstIsIn(t);
    } else {
      assert s[|s| - 1] in t && t[|t| - 1] in s;
      AscendingSameLast(s, t, less);
      AscendingInit(s, less);
      AscendingInit(t, less);
      SameRemainder(s, s[..|s| - 1], t, t[..|t| - 1], s[|s| - 1]);
      AscendingIsUnique(s[..|s| - 1], t[..|t| - 1], less);
      assert s == s[..|s| - 1] + [s[|s| - 1]] && t == t[..|t| - 1] + [t[|t| - 1]];
    }
  }

  // ----- In place -----

  /** The front with `x` taken down to position `j`, and the back behind it. */
  ghost predicate Shifted<T>(s: seq<T>, front: seq<T>, x: T, back: seq<T>, j: nat) {
    && j <= |front| && |s| == |front| + 1 + |back| && s[j] == x
    && (forall k :: 0 <= k < j ==> s[k] == front[k])
    && (forall k :: j < k <= |front| ==> s[k] == front[k - 1])
    && (forall k :: |front| < k < |s| ==> s[k] == back[k - |front| - 1])
  }

  lemma ShiftedOne<T>(s: seq<T>, front: seq<T>, x: T, back: seq<T>, j: nat)
    requires Shifted(s, front, x, back, j) && j > 0
    ensures Shifted(s[j := s[j - 1]][j - 1 := x], front, x, back, j - 1)
  {
  }

  method SwapOne<T>(a: array<T>, ghost front: seq<T>, ghost x: T, ghost back: seq<T>, j: nat)
    requires Shifted(a[..], front, x, back, j) && j > 0
    modifies a
    ensures Shifted(a[..], front, x, back, j - 1)
  {
    ghost var s := a[..];
    assert s[j] == x;
    a[j], a[j - 1] := a[j - 1], a[j];
    assert a[..] == s[j := s[j - 1]][j - 1 := x];
    ShiftedOne(s, front, x, back, j);
  }

  /** Swaps element `i` down to its place among the sorted ones before it. */
  method SwapDown<T>(a: array<T>, i: nat, less: (T, T) -> bool)
    requires i < a.Length
    modifies a
    ensures a[..] == Insert(old(a[..i]), old(a[i]), less) + old(a[i + 1..])
  {
    ghost var front, x, back := a[..i], a[i], a[i + 1..];
    var j := i;
    assert front[..j] == front && front[j..] == [];
    while j > 0 && less(a[j], a[j - 1])
      invariant j <= i && Shifted(a[..], front, x, back, j)
      invariant Insert(front, x, less) == Insert(front[..j], x, less) + front[j..]
    {
      assert a[..][j] == x && a[..][j - 1] == front[j - 1];
      InsertBelowLast(front, j, x, less);
      SwapOne(a, front, x, back, j);
      j := j - 1;
    }
    assert a[..][j] == x && (j > 0 ==> a[..][j - 1] == front[j - 1]);
    InPlace(a[..], front, x, back, j, less);
  }

  lemma InPlace<T>(after: seq<T>, front: seq<T>, x: T, back: seq<T>, j: nat, less: (T, T) -> bool)
    requires Shifted(after, front, x, back, j)
    requires j == 0 || !less(x, front[j - 1])
    requires Insert(front, x, less) == Insert(front[..j], x, less) + front[j..]
    ensures after == Insert(front, x, less) + back
  {
    assert Insert(front[..j], x, less) == front[..j] + [x];
    ShiftedIs(after, front, x, back, j);
  }

  lemma ShiftedIs<T>(s: seq<T>, front: seq<T>, x: T, back: seq<T>, j: nat)
    requires Shifted(s, front, x, back, j)
    ensures s == front[..j] + [x] + front[j..] + back
  {
  }

  lemma InsertBelowLast<T>(front: seq<T>, j: nat, x: T, less: (T, T) -> bool)
    requires 0 < j <= |front| && less(x, front[j - 1])
    ensures Insert(front[..j], x, less) + front[j..] == Insert(front[..j - 1], x, less) + front[j - 1..]
  {
    assert front[..j][..j - 1] == front[..j - 1];
    assert front[j - 1..] == [front[j - 1]] + front[j..];
  }

  lemma SortOneMore<T>(s: seq<T>, i: nat, less: (T, T) -> bool)
    requires i < |s|
    ensures StableSort(s[..i + 1], less) == Insert(StableSort(s[..i], less), s[i], less)
    ensures |StableSort(s[..i + 1], less)| == |StableSort(s[..i], less)| + 1
  {
    assert s[..i + 1][..i] == s[..i];
    InsertAdds(StableSort(s[..i], less), s[i], less);
  }

  /** The first `i` elements are sorted, the others where they were. */
  ghost predicate SortedUpTo<T>(s: seq<T>, before: seq<T>, i: nat, less: (T, T) -> bool) {
    i <= |before| && s == StableSort(before[..i], less) + before[i..] && |StableSort(before[..i], less)| == i
  }

  lemma SortedUpToAt<T>(s: seq<T>, before: seq<T>, i: nat, less: (T, T) -> bool)
    requires SortedUpTo(s, before, i, less) && i < |before|
    ensures |s| == |before|
    ensures s[..i] == StableSort(before[..i], less) && s[i] == before[i] && s[i + 1..] == before[i + 1..]
  {
  }

  /** Takes in one more element. */
  method InsertNext<T>(a: array<T>, ghost before: seq<T>, i: nat, less: (T, T) -> bool)
    requires SortedUpTo(a[..], before, i, less) && i < a.Length
    modifies a
    ensures SortedUpTo(a[..], before, i + 1, less)
  {
    ghost var s := a[..];
    assert |before| == |s|;
    SortedUpToAt(s, before, i, less);
    assert a[..i] == s[..i] && a[i + 1..] == s[i + 1..];
    SortOneMore(before, i, less);
    SwapDown(a, i, less);
  }

  method InsertionSort<T>(a: array<T>, less: (T, T) -> bool)
    modifies a
    ensures a[..] == StableSort(old(a[..]), less)
  {
    ghost var before := a[..];
    if a.Length == 0 {
      return;
    }
    assert before[..1] == [before[0]];
    SortSingle(before[0], less);
    var i := 1;
    while i < a.Length
      invariant 1 <= i <= a.Length == |before|
      invariant SortedUpTo(a[..], before, i, less)
    {
      InsertNext(a, before, i, less);
      i := i + 1;
    }
    assert before[..i] == before;
  }

  // ----- Strings and integers -----

  predicate IntLess(a: int, b: int) {
    a < b
  }

  lemma IntLessIsTotal()
    ensures StrictTotalOrder(IntLess)
  {
  }

  /** Byte-wise order of Go strings, on ASCII text. */
  predicate StringLess(a: string, b: string) {
    b != "" && (a == "" || a[0] < b[0] || (a[0] == b[0] && StringLess(a[1..], b[1..])))
  }

  /** The texts agree up to a position, and there the first ends or has the smaller character. */
  ghost predicate DiffersBelow(a: string, b: string, i: int) {
    && 0 <= i < |b| && i <= |a| && a[..i] == b[..i]
    && (i == |a| || a[i] < b[i])
  }

  lemma PrefixShift(a: string, b: string, i: nat)
    requires i + 1 <= |a| && i + 1 <= |b| && a[0] == b[0]
    ensures a[..i + 1] == b[..i + 1] <==> a[1..][..i] == b[1..][..i]
  {
    assert a[..i + 1] == [a[0]] + a[1..][..i];
    assert b[..i + 1] == [b[0]] + b[1..][..i];
    if a[..i + 1] == b[..i + 1] {
      assert a[1..][..i] == a[..i + 1][1..] == b[..i + 1][1..] == b[1..][..i];
    }
  }

  lemma DiffersBelowShift(a: string, b: string, i: nat)
    requires a != "" && b != "" && a[0] == b[0]
    ensures DiffersBelow(a[1..], b[1..], i) <==> DiffersBelow(a, b, i + 1)
  {
    if i + 1 < |b| && i + 1 <= |a| {
      PrefixShift(a, b, i);
    }
  }

  /** One text is less than another when at their first difference it ends or is smaller, and only then. */
  lemma {:induction false} StringLessIs(a: string, b: string)
    ensures StringLess(a, b) <==> exists i :: DiffersBelow(a, b, i)
    decreases |a|
  {
    if b != "" {
      if a == "" || a[0] < b[0] {
        assert DiffersBelow(a, b, 0);
      } else if a[0] == b[0] {
        StringLessIs(a[1..], b[1..]);
        if i :| DiffersBelow(a[1..], b[1..], i) {
          DiffersBelowShift(a, b, i);
        }
        if i :| DiffersBelow(a, b, i) {
          if i > 0 {
            DiffersBelowShift(a, b, i - 1);
          }
        }
      } else {
        forall i
          ensures !DiffersBelow(a, b, i)
        {
          FirstDecides(a, b, i);
        }
      }
    }
  }

  lemma FirstDecides(a: string, b: string, i: int)
    requires a != "" && b != ""
    ensures DiffersBelow(a, b, i) ==> a[0] <= b[0]
  {
    if 0 < i <= |a| && i < |b| && a[..i] == b[..i] {
      assert a[0] == a[..i][0] == b[..i][0] == b[0];
    }
  }

  lemma {:induction false} StringLessTransitive(a: string, b: string, c: string)
    ensures StringLess(a, b) && StringLess(b, c) ==> StringLess(a, c)
    ensures !StringLess(a, b) && !StringLess(b, c) ==> !StringLess(a, c)
    decreases |a|
  {
    if a != "" && b != "" && c != "" {
      StringLessTransitive(a[1..], b[1..], c[1..]);
    }
  }

  lemma {:induction false} StringLessTrichotomy(a: string, b: string)
    ensures !StringLess(a, a)
    ensures !StringLess(a, b) && !StringLess(b, a) ==> a == b
    decreases |a|
  {
    if a != "" {
      if b != "" {
        StringLessTrichotomy(a[1..], b[1..]);
        assert a == [a[0]] + a[1..] && b == [b[0]] + b[1..];
      } else {
        StringLessTrichotomy(a[1..], a[1..]);
      }
    }
  }

  lemma StringLessIsTotal()
    ensures StrictTotalOrder(StringLess)
  {
    forall a, b, c
      ensures StringLess(a, b) && StringLess(b, c) ==> StringLess(a, c)
      ensures !StringLess(a, b) && !StringLess(b, c) ==> !StringLess(a, c)
    {
      StringLessTransitive(a, b, c);
    }
    forall a, b
      ensures !StringLess(a, a)
      ensures !StringLess(a, b) && !StringLess(b, a) ==> a == b
    {
      StringLessTrichotomy(a, b);
    }
  }
}
