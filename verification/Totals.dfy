/** Aggregates over sequences that do not depend on the order of the elements. */
module Totals {

  function Sum<T>(s: seq<T>, f: T -> int): int {
    if s == [] then 0 else Sum(s[..|s| - 1], f) + f(s[|s| - 1])
  }

  /** The largest value, or zero if none is positive. */
  function Max0<T>(s: seq<T>, f: T -> int): int {
    if s == [] then 0
    else
      var m := Max0(s[..|s| - 1], f);
      if f(s[|s| - 1]) > m then f(s[|s| - 1]) else m
  }

  function Map<T, U>(s: seq<T>, f: T -> U): (r: seq<U>)
    ensures |r| == |s| && forall i :: 0 <= i < |s| ==> r[i] == f(s[i])
  {
    seq(|s|, i requires 0 <= i < |s| => f(s[i]))
  }

  function Without<T>(s: seq<T>, i: nat): seq<T>
    requires i < |s|
  {
    s[..i] + s[i + 1..]
  }

  /** In a rearrangement the last element stands somewhere, and what is left is a rearrangement too. */
  lemma FindLast<T>(s: seq<T>, t: seq<T>) returns (i: nat)
    requires s != [] && multiset(s) == multiset(t)
    ensures i < |t| && t[i] == s[|s| - 1]
    ensures multiset(s[..|s| - 1]) == multiset(Without(t, i))
  {
    var n := |s| - 1;
    assert s[n] in multiset(t);
    i :| 0 <= i < |t| && t[i] == s[n];
    MultisetInit(s);
    MultisetWithout(t, i);
    assert multiset(Without(t, i)) == multiset(t) - multiset{t[i]};
  }

  lemma MultisetInit<T>(s: seq<T>)
    requires s != []
    ensures multiset(s[..|s| - 1]) == multiset(s) - multiset{s[|s| - 1]}
  {
    assert s == s[..|s| - 1] + [s[|s| - 1]];
  }

  lemma {:induction false} SumWithout<T>(t: seq<T>, i: nat, f: T -> int)
    requires i < |t|
    ensures Sum(t, f) == Sum(Without(t, i), f) + f(t[i])
    decreases |t|
  {
    var n := |t| - 1;
    if i < n {
      SumWithout(t[..n], i, f);
      assert Without(t, i) == Without(t[..n], i) + [t[n]];
      SumOneMore(Without(t[..n], i), t[n], f);
    } else {
      assert Without(t, i) == t[..n];
    }
  }

  lemma {:induction false} SumForgetsOrder<T>(s: seq<T>, t: seq<T>, f: T -> int)
    requires multiset(s) == multiset(t)
    ensures Sum(s, f) == Sum(t, f)
    decreases |s|
  {
    if s == [] {
      assert |multiset(t)| == 0;
    } else {
      var i := FindLast(s, t);
      SumForgetsOrder(s[..|s| - 1], Without(t, i), f);
      SumWithout(t, i, f);
    }
  }

  lemma {:induction false} Max0IsMax<T>(s: seq<T>, f: T -> int)
    ensures Max0(s, f) >= 0
    ensures forall i :: 0 <= i < |s| ==> f(s[i]) <= Max0(s, f)
    ensures Max0(s, f) == 0 || exists i :: 0 <= i < |s| && f(s[i]) == Max0(s, f)
  {
    if s != [] {
      var n := |s| - 1;
      Max0IsMax(s[..n], f);
      if f(s[n]) > Max0(s[..n], f) {
        assert f(s[n]) == Max0(s, f);
      } else if Max0(s, f) != 0 {
        var i :| 0 <= i < n && f(s[..n][i]) == Max0(s[..n], f);
        assert f(s[i]) == Max0(s, f);
      }
    }
  }

  lemma Max0ForgetsOrder<T>(s: seq<T>, t: seq<T>, f: T -> int)
    requires multiset(s) == multiset(t)
    ensures Max0(s, f) == Max0(t, f)
  {
    Max0AtMost(s, t, f);
    Max0AtMost(t, s, f);
  }

  lemma Max0AtMost<T>(s: seq<T>, t: seq<T>, f: T -> int)
    requires multiset(s) == multiset(t)
    ensures Max0(s, f) <= Max0(t, f)
  {
    Max0IsMax(s, f);
    Max0IsMax(t, f);
    if Max0(s, f) != 0 {
      var i :| 0 <= i < |s| && f(s[i]) == Max0(s, f);
      assert s[i] in multiset(t);
      var j :| 0 <= j < |t| && t[j] == s[i];
    }
  }

  lemma MultisetWithout<T>(t: seq<T>, i: nat)
    requires i < |t|
    ensures multiset(t) == multiset(Without(t, i)) + multiset{t[i]}
  {
    assert t == t[..i] + [t[i]] + t[i + 1..];
  }

  lemma MapWithout<T, U>(t: seq<T>, i: nat, f: T -> U)
    requires i < |t|
    ensures multiset(Map(t, f)) == multiset(Map(Without(t, i), f)) + multiset{f(t[i])}
  {
    MultisetWithout(Map(t, f), i);
    assert Map(Without(t, i), f) == Without(Map(t, f), i);
  }

  lemma MapOneMore<T, U>(s: seq<T>, x: T, f: T -> U)
    ensures Map(s + [x], f) == Map(s, f) + [f(x)]
  {
  }

  lemma SumOneMore<T>(s: seq<T>, x: T, f: T -> int)
    ensures Sum(s + [x], f) == Sum(s, f) + f(x)
  {
    assert (s + [x])[..|s|] == s;
  }

  lemma Max0OneMore<T>(s: seq<T>, x: T, f: T -> int)
    ensures Max0(s + [x], f) == if f(x) > Max0(s, f) then f(x) else Max0(s, f)
  {
    assert (s + [x])[..|s|] == s;
  }

  lemma {:induction false} MapForgetsOrder<T, U>(s: seq<T>, t: seq<T>, f: T -> U)
    requires multiset(s) == multiset(t)
    ensures multiset(Map(s, f)) == multiset(Map(t, f))
    decreases |s|
  {
    if s == [] {
      assert |multiset(t)| == 0;
    } else {
      var n := |s| - 1;
      var i := FindLast(s, t);
      MapForgetsOrder(s[..n], Without(t, i), f);
      MapWithout(s, n, f);
      MapWithout(t, i, f);
      assert Without(s, n) == s[..n];
    }
  }

  function Count<T>(s: seq<T>, p: T -> bool): (n: nat)
    ensures n <= |s|
  {
    if s == [] then 0 else Count(s[..|s| - 1], p) + if p(s[|s| - 1]) then 1 else 0
  }

  lemma CountOneMore<T>(s: seq<T>, x: T, p: T -> bool)
    ensures Count(s + [x], p) == Count(s, p) + if p(x) then 1 else 0
  {
    assert (s + [x])[..|s|] == s;
  }

  lemma {:induction false} SumAppend<T>(s: seq<T>, t: seq<T>, f: T -> int)
    ensures Sum(s + t, f) == Sum(s, f) + Sum(t, f)
    decreases |t|
  {
    if t == [] {
      assert s + t == s;
    } else {
      var n := |t| - 1;
      SumAppend(s, t[..n], f);
      SumOneMore(s + t[..n], t[n], f);
      AppendLast(s, t);
    }
  }

  lemma {:induction false} CountAppend<T>(s: seq<T>, t: seq<T>, p: T -> bool)
    ensures Count(s + t, p) == Count(s, p) + Count(t, p)
    decreases |t|
  {
    if t == [] {
      assert s + t == s;
    } else {
      var n := |t| - 1;
      CountAppend(s, t[..n], p);
      CountOneMore(s + t[..n], t[n], p);
      AppendLast(s, t);
    }
  }

  lemma AppendLast<T>(s: seq<T>, t: seq<T>)
    requires t != []
    ensures s + t == (s + t[..|t| - 1]) + [t[|t| - 1]]
  {
  }

  lemma {:induction false} CountWithout<T>(t: seq<T>, i: nat, p: T -> bool)
    requires i < |t|
    ensures Count(t, p) == Count(Without(t, i), p) + if p(t[i]) then 1 else 0
    decreases |t|
  {
    var n := |t| - 1;
    if i < n {
      CountWithout(t[..n], i, p);
      assert Without(t, i) == Without(t[..n], i) + [t[n]];
      CountOneMore(Without(t[..n], i), t[n], p);
    } else {
      assert Without(t, i) == t[..n];
    }
  }

  lemma {:induction false} CountForgetsOrder<T>(s: seq<T>, t: seq<T>, p: T -> bool)
    requires multiset(s) == multiset(t)
    ensures Count(s, p) == Count(t, p)
    decreases |s|
  {
    if s == [] {
      assert |multiset(t)| == 0;
    } else {
      var i := FindLast(s, t);
      CountForgetsOrder(s[..|s| - 1], Without(t, i), p);
      CountWithout(t, i, p);
    }
  }

  ghost predicate Distinct<T>(s: seq<T>) {
    forall i, j :: 0 <= i < j < |s| ==> s[i] != s[j]
  }

  lemma {:induction false} OnceEach<T>(s: seq<T>, x: T)
    requires Distinct(s)
    ensures multiset(s)[x] <= 1
  {
    if s != [] {
      var n := |s| - 1;
      OnceEach(s[..n], x);
      assert s == s[..n] + [s[n]];
      if x == s[n] {
        assert x !in s[..n];
      }
    }
  }

  lemma TwiceTwo<T>(s: seq<T>, i: nat, j: nat)
    requires i < j < |s| && s[i] == s[j]
    ensures multiset(s)[s[i]] >= 2
  {
    assert s == s[..i] + [s[i]] + s[i + 1..j] + [s[j]] + s[j + 1..];
  }

  lemma DistinctForgetsOrder<T>(s: seq<T>, t: seq<T>)
    requires multiset(s) == multiset(t) && Distinct(s)
    ensures Distinct(t)
  {
    forall i, j | 0 <= i < j < |t|
      ensures t[i] != t[j]
    {
      OnceEach(s, t[i]);
      if t[i] == t[j] {
        TwiceTwo(t, i, j);
      }
    }
  }

  lemma DistinctOneMore<T>(s: seq<T>, x: T)
    requires Distinct(s) && x !in s
    ensures Distinct(s + [x])
  {
  }
}
