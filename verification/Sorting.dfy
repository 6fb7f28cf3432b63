/** Stable sorting, as Python's sorted and SQL's ORDER BY are used. */
module Sorting {

  /** After every element that is not larger. */
  function Inserted<T>(s: seq<T>, x: T, leq: (T, T) -> bool): seq<T> {
    if s == [] || leq(s[|s| - 1], x) then s + [x] else Inserted(s[..|s| - 1], x, leq) + [s[|s| - 1]]
  }

  function Sorted<T>(s: seq<T>, leq: (T, T) -> bool): seq<T> {
    if s == [] then [] else Inserted(Sorted(s[..|s| - 1], leq), s[|s| - 1], leq)
  }

  ghost predicate TotalPreorder<T(!new)>(leq: (T, T) -> bool) {
    && (forall x, y :: leq(x, y) || leq(y, x))
    && (forall x, y, z :: leq(x, y) && leq(y, z) ==> leq(x, z))
  }

  predicate Ordered<T>(s: seq<T>, leq: (T, T) -> bool) {
    forall i, j | 0 <= i < j < |s| :: leq(s[i], s[j])
  }

  lemma WithoutLast<T>(s: seq<T>)
    requires s != []
    ensures multiset(s) == multiset(s[..|s| - 1]) + multiset{s[|s| - 1]}
  {
    assert s == s[..|s| - 1] + [s[|s| - 1]];
  }

  lemma {:induction false} InsertedIsPermutation<T>(s: seq<T>, x: T, leq: (T, T) -> bool)
    ensures multiset(Inserted(s, x, leq)) == multiset(s) + multiset{x}
    decreases s
  {
    if s != [] && !leq(s[|s| - 1], x) {
      InsertedIsPermutation(s[..|s| - 1], x, leq);
      WithoutLast(s);
    }
  }

  lemma {:induction false} InsertedIsOrdered<T(!new)>(s: seq<T>, x: T, leq: (T, T) -> bool)
    requires TotalPreorder(leq) && Ordered(s, leq)
    ensures Ordered(Inserted(s, x, leq), leq)
    decreases s
  {
    if s != [] && !leq(s[|s| - 1], x) {
      var n := |s| - 1;
      var before := Inserted(s[..n], x, leq);
      InsertedIsOrdered(s[..n], x, leq);
      InsertedIsPermutation(s[..n], x, leq);
      forall i | 0 <= i < |before|
        ensures leq(before[i], s[n])
      {
        assert before[i] in multiset(before);
        assert before[i] == x || before[i] in s[..n];
      }
    }
  }

  lemma {:induction false} SortedIsPermutation<T>(s: seq<T>, leq: (T, T) -> bool)
    ensures multiset(Sorted(s, leq)) == multiset(s)
    decreases s
  {
    if s != [] {
      hide Inserted;
      var n := |s| - 1;
      SortedIsPermutation(s[..n], leq);
      InsertedIsPermutation(Sorted(s[..n], leq), s[n], leq);
      WithoutLast(s);
    }
  }

  lemma {:induction false} SortedIsOrdered<T(!new)>(s: seq<T>, leq: (T, T) -> bool)
    requires TotalPreorder(leq)
    ensures Ordered(Sorted(s, leq), leq)
    decreases s
  {
    if s != [] {
      SortedIsOrdered(s[..|s| - 1], leq);
      InsertedIsOrdered(Sorted(s[..|s| - 1], leq), s[|s| - 1], leq);
    }
  }

  /** The order tells the elements apart. */
  predicate Discerns<T(==)>(s: seq<T>, leq: (T, T) -> bool) {
    forall i, j | 0 <= i < |s| && 0 <= j < |s| && leq(s[i], s[j]) && leq(s[j], s[i]) :: s[i] == s[j]
  }

  lemma LastIsUnique<T>(s: seq<T>, t: seq<T>, leq: (T, T) -> bool)
    requires Ordered(s, leq) && Ordered(t, leq) && Discerns(s, leq) && s != [] && multiset(s) == multiset(t)
    ensures t != [] && s[|s| - 1] == t[|t| - 1]
  {
    SameMembers(s, t);
    var a, b := s[|s| - 1], t[|t| - 1];
    assert a in s && b in t;
    var i :| 0 <= i < |t| && t[i] == a;
    var j :| 0 <= j < |s| && s[j] == b;
  }

  predicate Distinct<T(==)>(s: seq<T>) { forall i, j | 0 <= i < j < |s| :: s[i] != s[j] }

  lemma DistinctLast<T>(s: seq<T>)
    requires s != []
    ensures Distinct(s) <==> Distinct(s[..|s| - 1]) && s[|s| - 1] !in s[..|s| - 1]
  {
    var n := |s| - 1;
    if s[n] in s[..n] {
      var i :| 0 <= i < n && s[..n][i] == s[n];
      assert s[i] == s[n];
    } else {
      assert forall i | 0 <= i < n :: s[..n][i] == s[i] && s[i] != s[n];
    }
  }

  lemma {:induction false} OnceEach<T>(s: seq<T>, x: T)
    requires Distinct(s)
    ensures multiset(s)[x] <= 1
    decreases s
  {
    if s != [] {
      DistinctLast(s);
      OnceEach(s[..|s| - 1], x);
      WithoutLast(s);
    }
  }

  /** A permutation of different elements has the same, all different. */
  lemma DistinctIfPermuted<T>(s: seq<T>, t: seq<T>)
    requires Distinct(t) && multiset(s) == multiset(t)
    ensures Distinct(s) && forall x :: x in s <==> x in t
  {
    SameMembers(s, t);
    forall i, j | 0 <= i < j < |s|
      ensures s[i] != s[j]
    {
      if s[i] == s[j] {
        OnceEach(t, s[i]);
        TwiceIn(s, i, j);
        assert false;
      }
    }
  }

  lemma TwiceIn<T>(s: seq<T>, i: nat, j: nat)
    requires i < j < |s| && s[i] == s[j]
    ensures multiset(s)[s[i]] >= 2
  {
    assert s == s[..j] + [s[j]] + s[j + 1..];
    assert s[..j][i] == s[i];
    assert s[i] in multiset(s[..j]);
  }

  lemma SameMembers<T>(s: seq<T>, t: seq<T>)
    requires multiset(s) == multiset(t)
    ensures |s| == |t| && (forall x | x in s :: x in t) && (forall x | x in t :: x in s)
  {
    assert |s| == |multiset(s)| == |multiset(t)| == |t|;
    assert forall x | x in s :: x in multiset(s);
    assert forall x | x in t :: x in multiset(t);
  }

  lemma SameWithoutLast<T>(s: seq<T>, t: seq<T>)
    requires s != [] && t != [] && multiset(s) == multiset(t) && s[|s| - 1] == t[|t| - 1]
    ensures multiset(s[..|s| - 1]) == multiset(t[..|t| - 1])
  {
    WithoutLast(s);
    WithoutLast(t);
    Cancel(multiset(s[..|s| - 1]), multiset(t[..|t| - 1]), s[|s| - 1]);
  }

  lemma Cancel<T>(m: multiset<T>, n: multiset<T>, x: T)
    requires m + multiset{x} == n + multiset{x}
    ensures m == n
  {
    assert m == (m + multiset{x}) - multiset{x};
    assert n == (n + multiset{x}) - multiset{x};
  }

  lemma Prefix<T>(s: seq<T>, leq: (T, T) -> bool)
    requires s != []
    ensures Ordered(s, leq) ==> Ordered(s[..|s| - 1], leq)
    ensures Discerns(s, leq) ==> Discerns(s[..|s| - 1], leq)
  {}

  /** Two ordered arrangements of the same elements are the same where the order tells them apart. */
  lemma {:induction false} OrderIsUnique<T>(s: seq<T>, t: seq<T>, leq: (T, T) -> bool)
    requires Ordered(s, leq) && Ordered(t, leq) && Discerns(s, leq) && multiset(s) == multiset(t)
    ensures s == t
    decreases s
  {
    hide Ordered, Discerns;
    if s == [] {
      SameMembers(s, t);
    } else {
      LastIsUnique(s, t, leq);
      SameWithoutLast(s, t);
      Prefix(s, leq);
      Prefix(t, leq);
      OrderIsUnique(s[..|s| - 1], t[..|t| - 1], leq);
      assert s == s[..|s| - 1] + [s[|s| - 1]] && t == t[..|t| - 1] + [t[|t| - 1]];
    }
  }
}
