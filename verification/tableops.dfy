/**
 Generic operations on in-memory tables (sequences of rows): the boolean-mask
 selection `df[mask]` and `sort_values` of a pandas DataFrame, stated over
 Dafny sequences.
 */
module TableOps {

  /** `le` is a total preorder: every two rows are comparable and the order is transitive. */
  ghost predicate TotalPreorder<T(!new)>(le: (T, T) -> bool)
  {
    && (forall a, b :: le(a, b) || le(b, a))
    && (forall a, b, c :: le(a, b) && le(b, c) ==> le(a, c))
  }

  /** Every earlier row is `le` every later row. */
  ghost predicate SortedBy<T>(s: seq<T>, le: (T, T) -> bool)
  {
    forall i, j :: 0 <= i < j < |s| ==> le(s[i], s[j])
  }

  /** Boolean-mask selection: the rows satisfying `p`, in their original order. */
  function Select<T(!new)>(s: seq<T>, p: T -> bool): (r: seq<T>)
    ensures |r| <= |s|
    ensures forall i :: 0 <= i < |r| ==> p(r[i])
  {
    if |s| == 0 then [] else (if p(s[0]) then [s[0]] else []) + Select(s[1..], p)
  }

  /**
   Selection keeps exactly the rows satisfying `p`, each as many times as it
   occurs in the table, and drops all others.
   */
  lemma {:induction false} SelectMembers<T(!new)>(s: seq<T>, p: T -> bool)
    ensures forall x :: x in Select(s, p) <==> x in s && p(x)
    ensures forall x :: multiset(Select(s, p))[x] == if p(x) then multiset(s)[x] else 0
  {
    if |s| > 0 {
      SelectMembers(s[1..], p);
      assert s == [s[0]] + s[1..];
    }
  }

  /** Selection distributes over concatenation: relative order is kept. */
  lemma {:induction false} SelectAppend<T(!new)>(a: seq<T>, b: seq<T>, p: T -> bool)
    ensures Select(a + b, p) == Select(a, p) + Select(b, p)
  {
    if |a| == 0 {
      assert a + b == b;
    } else {
      assert (a + b)[0] == a[0];
      assert (a + b)[1..] == a[1..] + b;
      SelectAppend(a[1..], b, p);
    }
  }

  /** A mask that keeps every row is the identity. */
  lemma {:induction false} SelectKeepsAll<T(!new)>(s: seq<T>, p: T -> bool)
    requires forall i :: 0 <= i < |s| ==> p(s[i])
    ensures Select(s, p) == s
  {
    if |s| > 0 {
      SelectKeepsAll(s[1..], p);
    }
  }

  /** A mask that rejects every row selects nothing. */
  lemma {:induction false} SelectKeepsNone<T(!new)>(s: seq<T>, p: T -> bool)
    requires forall i :: 0 <= i < |s| ==> !p(s[i])
    ensures Select(s, p) == []
  {
    if |s| > 0 {
      SelectKeepsNone(s[1..], p);
    }
  }

  /** Two masks that agree on the rows select the same rows. */
  lemma {:induction false} SelectExtensional<T(!new)>(s: seq<T>, p: T -> bool, q: T -> bool)
    requires forall i :: 0 <= i < |s| ==> p(s[i]) == q(s[i])
    ensures Select(s, p) == Select(s, q)
  {
    if |s| > 0 {
      SelectExtensional(s[1..], p, q);
    }
  }

  /** Applying two masks one after the other is selecting by their conjunction. */
  lemma {:induction false} SelectTwice<T(!new)>(s: seq<T>, p: T -> bool, q: T -> bool, pq: T -> bool)
    requires forall i :: 0 <= i < |s| ==> pq(s[i]) == (p(s[i]) && q(s[i]))
    ensures Select(Select(s, p), q) == Select(s, pq)
  {
    if |s| > 0 {
      var tail := Select(s[1..], p);
      SelectTwice(s[1..], p, q, pq);
      assert pq(s[0]) == (p(s[0]) && q(s[0]));
      if p(s[0]) {
        var a := [s[0]] + tail;
        assert Select(s, p) == a;
        assert a[0] == s[0] && a[1..] == tail;
        assert Select(a, q) == (if q(s[0]) then [s[0]] else []) + Select(tail, q);
      } else {
        assert Select(s, p) == tail;
      }
    }
  }

  /** Three masks that partition the rows split the table into three parts whose sizes add up. */
  lemma {:induction false} SelectPartition3<T(!new)>(s: seq<T>, p: T -> bool, q: T -> bool, u: T -> bool)
    requires forall i :: 0 <= i < |s| ==> (if p(s[i]) then 1 else 0) + (if q(s[i]) then 1 else 0) + (if u(s[i]) then 1 else 0) == 1
    ensures |Select(s, p)| + |Select(s, q)| + |Select(s, u)| == |s|
  {
    if |s| > 0 {
      SelectPartition3(s[1..], p, q, u);
    }
  }

  /** Places `x` in front of the first row it is `le`; the result stays sorted. */
  function Insert<T(!new)>(x: T, s: seq<T>, le: (T, T) -> bool): (r: seq<T>)
    requires TotalPreorder(le)
    requires SortedBy(s, le)
    ensures |r| == |s| + 1
    ensures multiset(r) == multiset(s) + multiset{x}
    ensures SortedBy(r, le)
  {
    if |s| == 0 then [x]
    else if le(x, s[0]) then [x] + s
    else
      assert s == [s[0]] + s[1..];
      var tail := s[1..];
      assert le(s[0], x);
      assert forall k :: 0 <= k < |tail| ==> le(s[0], tail[k]) by {
        forall k | 0 <= k < |tail|
          ensures le(s[0], tail[k])
        {
          assert tail[k] == s[k + 1];
        }
      }
      var rest := Insert(x, tail, le);
      BoundsPermutation(s[0], tail, x, rest, le);
      ConsSorted(s[0], rest, le);
      [s[0]] + rest
  }

  /** A lower bound of `x` and of every row of `s` bounds every row of a permutation of both. */
  lemma BoundsPermutation<T(!new)>(y: T, s: seq<T>, x: T, r: seq<T>, le: (T, T) -> bool)
    requires forall k :: 0 <= k < |s| ==> le(y, s[k])
    requires le(y, x)
    requires multiset(r) == multiset(s) + multiset{x}
    ensures forall k :: 0 <= k < |r| ==> le(y, r[k])
  {
    forall k | 0 <= k < |r|
      ensures le(y, r[k])
    {
      assert r[k] in multiset(r);
      if r[k] != x {
        assert r[k] in multiset(s);
        var m :| 0 <= m < |s| && s[m] == r[k];
      }
    }
  }

  /** A sorted sequence stays sorted behind a lower bound of all its rows. */
  lemma ConsSorted<T>(y: T, r: seq<T>, le: (T, T) -> bool)
    requires SortedBy(r, le)
    requires forall k :: 0 <= k < |r| ==> le(y, r[k])
    ensures SortedBy([y] + r, le)
  {
    var t := [y] + r;
    forall i, j | 0 <= i < j < |t|
      ensures le(t[i], t[j])
    {
      assert t[j] == r[j - 1];
      if i > 0 {
        assert t[i] == r[i - 1];
      }
    }
  }

  /** A sorted permutation of the table; rows tied under `le` keep their input order (`InsertionSortStable`). */
  function InsertionSort<T(!new)>(s: seq<T>, le: (T, T) -> bool): (r: seq<T>)
    requires TotalPreorder(le)
    ensures |r| == |s|
    ensures multiset(r) == multiset(s)
    ensures SortedBy(r, le)
  {
    if |s| == 0 then []
    else
      assert s == [s[0]] + s[1..];
      Insert(s[0], InsertionSort(s[1..], le), le)
  }
  /**
   Two sorted permutations of each other are equal when `le` tells their
   rows apart (no two different rows are `le` both ways).
   */
  lemma {:induction false} SortedUnique<T(!new)>(a: seq<T>, b: seq<T>, le: (T, T) -> bool)
    requires multiset(a) == multiset(b)
    requires SortedBy(a, le) && SortedBy(b, le)
    requires forall x, y :: x in a && y in a && le(x, y) && le(y, x) ==> x == y
    ensures a == b
    decreases |a|
  {
    assert |a| == |multiset(a)| == |multiset(b)| == |b|;
    if |a| > 0 {
      SameHead(a, b, le);
      SameTailMultiset(a, b);
      SortedTail(a, le);
      SortedTail(b, le);
      forall x, y | x in a[1..] && y in a[1..] && le(x, y) && le(y, x)
        ensures x == y
      {
        assert x in a && y in a;
      }
      SortedUnique(a[1..], b[1..], le);
      assert a == [a[0]] + a[1..] && b == [b[0]] + b[1..];
    }
  }

  /** Sorted permutations of each other start with the same row when `le` tells rows apart. */
  lemma SameHead<T(!new)>(a: seq<T>, b: seq<T>, le: (T, T) -> bool)
    requires |a| > 0 && |b| > 0 && multiset(a) == multiset(b)
    requires SortedBy(a, le) && SortedBy(b, le)
    requires forall x, y :: x in a && y in a && le(x, y) && le(y, x) ==> x == y
    ensures a[0] == b[0]
  {
    assert a[0] in multiset(b) && b[0] in multiset(a);
    var i :| 0 <= i < |a| && a[i] == b[0];
    var j :| 0 <= j < |b| && b[j] == a[0];
    if i > 0 && j > 0 {
      assert le(a[0], a[i]) && le(b[0], b[j]);
      assert a[0] in a && a[i] in a;
    }
  }

  lemma SameTailMultiset<T>(a: seq<T>, b: seq<T>)
    requires |a| > 0 && |b| > 0 && multiset(a) == multiset(b) && a[0] == b[0]
    ensures multiset(a[1..]) == multiset(b[1..])
  {
    assert a == [a[0]] + a[1..] && b == [b[0]] + b[1..];
    assert multiset(a[1..]) == multiset(a) - multiset{a[0]};
    assert multiset(b[1..]) == multiset(b) - multiset{b[0]};
  }

  lemma SortedTail<T>(a: seq<T>, le: (T, T) -> bool)
    requires |a| > 0 && SortedBy(a, le)
    ensures SortedBy(a[1..], le)
  {
    forall i, j | 0 <= i < j < |a| - 1
      ensures le(a[1..][i], a[1..][j])
    {
      assert a[1..][i] == a[i + 1] && a[1..][j] == a[j + 1];
    }
  }

  /** The rows tied with `c` under `le`, that is `le` both ways. */
  function Ties<T>(le: (T, T) -> bool, c: T): T -> bool
  {
    (y: T) => le(c, y) && le(y, c)
  }

  /** A mask keeps a single row exactly when the row passes it. */
  lemma SelectSingle<T(!new)>(x: T, p: T -> bool)
    ensures Select([x], p) == if p(x) then [x] else []
  {
    assert [x][1..] == [];
  }

  /**
   Inserting `x` into a sorted table puts it in front of the rows tied with
   it: among the rows of any tie class, the order is that of `[x] + s`.
   */
  lemma {:induction false} InsertStable<T(!new)>(x: T, s: seq<T>, le: (T, T) -> bool, c: T)
    requires TotalPreorder(le)
    requires SortedBy(s, le)
    ensures Select(Insert(x, s, le), Ties(le, c)) == Select([x] + s, Ties(le, c))
  {
    if |s| > 0 && !le(x, s[0]) {
      var q := Ties(le, c);
      var h, tail := s[0], s[1..];
      SortedTail(s, le);
      var rest := Insert(x, tail, le);
      assert Insert(x, s, le) == [h] + rest;
      InsertStable(x, tail, le, c);
      assert s == [h] + tail;
      NotBothTied(x, h, le, c);
      SelectInsertBehind(x, h, tail, rest, q);
    }
  }

  /** Two rows that are not tied with each other are not both tied with `c`. */
  lemma NotBothTied<T(!new)>(x: T, h: T, le: (T, T) -> bool, c: T)
    requires TotalPreorder(le)
    requires !le(x, h)
    ensures !(Ties(le, c)(x) && Ties(le, c)(h))
  {
    if le(x, c) {
      assert le(c, h) ==> le(x, h);
    }
  }

  /**
   Moving `x` behind a row `h` that does not share a mask class with it keeps
   the selection: the selection-level step of `InsertStable`.
   */
  lemma SelectInsertBehind<T(!new)>(x: T, h: T, tail: seq<T>, rest: seq<T>, q: T -> bool)
    requires !(q(x) && q(h))
    requires Select(rest, q) == Select([x] + tail, q)
    ensures Select([h] + rest, q) == Select([x] + ([h] + tail), q)
  {
    SelectAppend([h], rest, q);
    SelectAppend([x], tail, q);
    SelectAppend([h], tail, q);
    SelectAppend([x], [h] + tail, q);
    SelectSingle(x, q);
    SelectSingle(h, q);
  }

  /** Insertion sort is stable: within every tie class, rows keep their input order. */
  lemma {:induction false} InsertionSortStable<T(!new)>(s: seq<T>, le: (T, T) -> bool, c: T)
    requires TotalPreorder(le)
    ensures Select(InsertionSort(s, le), Ties(le, c)) == Select(s, Ties(le, c))
  {
    if |s| > 0 {
      var q := Ties(le, c);
      var h, tail := s[0], s[1..];
      var t := InsertionSort(tail, le);
      assert InsertionSort(s, le) == Insert(h, t, le);
      InsertionSortStable(tail, le, c);
      InsertStable(h, t, le, c);
      assert s == [h] + tail;
      SelectCons(h, t, tail, q);
    }
  }

  /** Equal selections stay equal behind the same first row. */
  lemma SelectCons<T(!new)>(h: T, t: seq<T>, u: seq<T>, q: T -> bool)
    requires Select(t, q) == Select(u, q)
    ensures Select([h] + t, q) == Select([h] + u, q)
  {
    SelectAppend([h], t, q);
    SelectAppend([h], u, q);
  }
}
