/** The ranking of app.py: a stable sort of `(score, candidate)` pairs by
    descending score, and the cut of the display list to the top 50. */
module Ranking {

  predicate SortedDesc<T>(xs: seq<(real, T)>) {
    forall i, j :: 0 <= i < j < |xs| ==> xs[i].0 >= xs[j].0
  }

  /** The entries scored `v`, in their order in `xs`. */
  function WithScore<T(==,!new)>(xs: seq<(real, T)>, v: real): (r: seq<(real, T)>)
    ensures forall e :: e in r <==> e in xs && e.0 == v
    ensures |r| <= |xs|
  {
    if xs == [] then []
    else
      var rest := WithScore(xs[1..], v);
      assert forall e :: e in xs <==> e == xs[0] || e in xs[1..];
      (if xs[0].0 == v then [xs[0]] else []) + rest
  }

  lemma {:induction false} WithScoreAppend<T(!new)>(a: seq<(real, T)>, b: seq<(real, T)>, v: real)
    ensures WithScore(a + b, v) == WithScore(a, v) + WithScore(b, v)
    decreases |a|
  {
    if a == [] {
      assert a + b == b;
    } else {
      assert (a + b)[1..] == a[1..] + b;
      WithScoreAppend(a[1..], b, v);
    }
  }

  /** Put `x` after every entry scoring at least as much. */
  function Insert<T(==,!new)>(x: (real, T), xs: seq<(real, T)>): (r: seq<(real, T)>)
    requires SortedDesc(xs)
    ensures SortedDesc(r)
    ensures |r| == |xs| + 1
    ensures forall e :: e in r <==> e == x || e in xs
    ensures multiset(r) == multiset(xs) + multiset{x}
    ensures forall v :: WithScore(r, v) == WithScore(xs, v) + WithScore([x], v)
    decreases |xs|
  {
    if xs == [] then [x]
    else if xs[0].0 >= x.0 then
      var rest := Insert(x, xs[1..]);
      InsertBehindSorted(x, xs, rest);
      InsertBehindMembers(x, xs, rest);
      forall v
        ensures WithScore([xs[0]] + rest, v) == WithScore(xs, v) + WithScore([x], v)
      {
        InsertBehind(x, xs, rest, v);
      }
      [xs[0]] + rest
    else
      var r := [x] + xs;
      assert r[1..] == xs;
      assert multiset(r) == multiset{x} + multiset(xs);
      forall v
        ensures WithScore(r, v) == WithScore(xs, v) + WithScore([x], v)
      {
        WithScoreAppend([x], xs, v);
        InsertAhead(x, xs, v);
      }
      r
  }

  /** Putting the head back in front of `rest` keeps the entries. */
  lemma InsertBehindMembers<T(!new)>(x: (real, T), xs: seq<(real, T)>, rest: seq<(real, T)>)
    requires xs != []
    requires multiset(rest) == multiset(xs[1..]) + multiset{x}
    requires forall e :: e in rest <==> e == x || e in xs[1..]
    ensures multiset([xs[0]] + rest) == multiset(xs) + multiset{x}
    ensures forall e :: e in [xs[0]] + rest <==> e == x || e in xs
  {
    assert xs == [xs[0]] + xs[1..];
    assert forall e :: e in xs <==> e == xs[0] || e in xs[1..];
    assert forall e :: e in [xs[0]] + rest <==> e == xs[0] || e in rest;
    assert multiset([xs[0]] + rest) == multiset{xs[0]} + multiset(rest);
  }

  lemma InsertBehindSorted<T(!new)>(x: (real, T), xs: seq<(real, T)>, rest: seq<(real, T)>)
    requires SortedDesc(xs) && xs != [] && xs[0].0 >= x.0
    requires SortedDesc(rest)
    requires forall e :: e in rest ==> e == x || e in xs[1..]
    ensures SortedDesc([xs[0]] + rest)
  {
    var r := [xs[0]] + rest;
    forall e | e in rest
      ensures xs[0].0 >= e.0
    {
      if e != x {
        var k :| 0 <= k < |xs[1..]| && xs[1..][k] == e;
        assert xs[k + 1] == e;
      }
    }
    forall i, j | 0 <= i < j < |r|
      ensures r[i].0 >= r[j].0
    {
      assert r[j] == rest[j - 1];
      if i > 0 {
        assert r[i] == rest[i - 1];
      }
    }
  }

  lemma InsertBehind<T(!new)>(x: (real, T), xs: seq<(real, T)>, rest: seq<(real, T)>, v: real)
    requires xs != []
    requires WithScore(rest, v) == WithScore(xs[1..], v) + WithScore([x], v)
    ensures WithScore([xs[0]] + rest, v) == WithScore(xs, v) + WithScore([x], v)
  {
    WithScoreAppend([xs[0]], rest, v);
    WithScoreAppend([xs[0]], xs[1..], v);
    assert [xs[0]] + xs[1..] == xs;
    ConcatAssoc(WithScore([xs[0]], v), WithScore(xs[1..], v), WithScore([x], v));
  }

  lemma ConcatAssoc<U>(a: seq<U>, b: seq<U>, c: seq<U>)
    ensures a + (b + c) == (a + b) + c
  {
  }

  /** When `x` outscores every entry, `x`'s score class in `xs` is empty or
      `x` is not in it, so putting it first or last in that class agrees. */
  lemma InsertAhead<T(!new)>(x: (real, T), xs: seq<(real, T)>, v: real)
    requires SortedDesc(xs) && xs != [] && xs[0].0 < x.0
    ensures WithScore([x], v) + WithScore(xs, v) == WithScore(xs, v) + WithScore([x], v)
  {
    assert [x][1..] == [];
  }

  /** Python's `sort(key=score, reverse=True)`: stable, so entries of equal
      score keep their order. */
  function SortDesc<T(==,!new)>(xs: seq<(real, T)>): (r: seq<(real, T)>)
    ensures SortedDesc(r)
    ensures |r| == |xs|
    ensures forall e :: e in r <==> e in xs
    ensures multiset(r) == multiset(xs)
    ensures forall v :: WithScore(r, v) == WithScore(xs, v)
    decreases |xs|
  {
    if xs == [] then []
    else
      var init := xs[..|xs| - 1];
      var last := xs[|xs| - 1];
      var r := Insert(last, SortDesc(init));
      assert xs == init + [last];
      assert forall e :: e in xs <==> e in init || e == last;
      forall v
        ensures WithScore(r, v) == WithScore(xs, v)
      {
        WithScoreAppend(init, [last], v);
      }
      r
  }

  lemma WithScoreHead<T(!new)>(a: seq<(real, T)>)
    ensures a != [] ==> a[0] in WithScore(a, a[0].0)
  {
  }

  /** Two score-sorted lists with the same entries in every score class, in
      the same order, are equal: the stable descending order is the only
      one with both properties. */
  lemma {:induction false} SortedUnique<T(!new)>(a: seq<(real, T)>, b: seq<(real, T)>)
    requires SortedDesc(a) && SortedDesc(b)
    requires forall v :: WithScore(a, v) == WithScore(b, v)
    ensures a == b
    decreases |a|
  {
    WithScoreHead(a);
    WithScoreHead(b);
    if a == [] || b == [] {
    } else {
      SameHead(a, b);
      SameTails(a, b);
      SortedTail(a);
      SortedTail(b);
      SortedUnique(a[1..], b[1..]);
      assert a == [a[0]] + a[1..] && b == [b[0]] + b[1..];
    }
  }

  /** Sorted lists with the same score classes start with the same entry:
      both heads carry the top score, and each is first in its class. */
  lemma SameHead<T(!new)>(a: seq<(real, T)>, b: seq<(real, T)>)
    requires a != [] && b != []
    requires SortedDesc(a) && SortedDesc(b)
    requires forall v :: WithScore(a, v) == WithScore(b, v)
    ensures a[0] == b[0]
  {
    var x, y := a[0], b[0];
    WithScoreHead(a);
    WithScoreHead(b);
    assert WithScore(a, x.0) == WithScore(b, x.0);
    assert WithScore(a, y.0) == WithScore(b, y.0);
    HeadIsTop(b, x);
    HeadIsTop(a, y);
    assert WithScore(a, x.0)[0] == x;
    assert WithScore(b, x.0)[0] == y;
  }

  lemma SortedTail<T>(a: seq<(real, T)>)
    requires SortedDesc(a) && a != []
    ensures SortedDesc(a[1..])
  {
    assert forall i :: 0 <= i < |a[1..]| ==> a[1..][i] == a[i + 1];
  }

  /** The head of a sorted list carries its top score. */
  lemma HeadIsTop<T(!new)>(a: seq<(real, T)>, e: (real, T))
    requires SortedDesc(a) && e in a
    ensures a[0].0 >= e.0
  {
    var k :| 0 <= k < |a| && a[k] == e;
  }

  /** Dropping a common head keeps the score classes equal. */
  lemma SameTails<T(!new)>(a: seq<(real, T)>, b: seq<(real, T)>)
    requires a != [] && b != [] && a[0] == b[0]
    requires forall v :: WithScore(a, v) == WithScore(b, v)
    ensures forall v :: WithScore(a[1..], v) == WithScore(b[1..], v)
  {
    var x := a[0];
    forall v
      ensures WithScore(a[1..], v) == WithScore(b[1..], v)
    {
      assert WithScore(a, v) == (if x.0 == v then [x] else []) + WithScore(a[1..], v);
      assert WithScore(b, v) == (if x.0 == v then [x] else []) + WithScore(b[1..], v);
      assert WithScore(a, v) == WithScore(b, v);
      if x.0 == v {
        assert WithScore(a[1..], v) == WithScore(a, v)[1..];
        assert WithScore(b[1..], v) == WithScore(b, v)[1..];
      } else {
        assert [] + WithScore(a[1..], v) == WithScore(a[1..], v);
        assert [] + WithScore(b[1..], v) == WithScore(b[1..], v);
      }
    }
  }

  /** The ranking is determined: any stable descending arrangement of the
      same entries is `SortDesc`'s. */
  lemma SortDescIsTheStableOrder<T(!new)>(xs: seq<(real, T)>, ys: seq<(real, T)>)
    requires SortedDesc(ys)
    requires forall v :: WithScore(ys, v) == WithScore(xs, v)
    ensures ys == SortDesc(xs)
  {
    SortedUnique(ys, SortDesc(xs));
  }

  /** Two candidates on the same score stay in extraction order. */
  lemma TiesKeepOrder<T(!new)>(s: real, x: T, y: T)
    ensures SortDesc([(s, x), (s, y)]) == [(s, x), (s, y)]
  {
    var xs := [(s, x), (s, y)];
    assert SortedDesc(xs);
    SortDescIsTheStableOrder(xs, xs);
  }

  /* ---- display ---- */

  const MaxDisplay := 50

  /** A displayed card: its rank, the score and the candidate. */
  datatype Card<T> = Card(rank: nat, score: real, item: T)

  /** The first 50 ranked entries, the one at index i ranked i + 1. */
  function Display<T>(ranked: seq<(real, T)>): (r: seq<Card<T>>)
    ensures |r| == if |ranked| <= MaxDisplay then |ranked| else MaxDisplay
    ensures forall i :: 0 <= i < |r| ==> r[i] == Card(i + 1, ranked[i].0, ranked[i].1)
  {
    var n := if |ranked| <= MaxDisplay then |ranked| else MaxDisplay;
    seq(n, i requires 0 <= i < n => Card(i + 1, ranked[i].0, ranked[i].1))
  }

  /** On a ranked list, every card shown scores at least as much as every
      entry left off, and ranks follow scores. */
  lemma DisplayShowsTheBest<T(!new)>(ranked: seq<(real, T)>)
    requires SortedDesc(ranked)
    ensures forall i, j :: 0 <= i < |Display(ranked)| <= j < |ranked| ==> Display(ranked)[i].score >= ranked[j].0
    ensures forall i, j :: 0 <= i < j < |Display(ranked)| ==> Display(ranked)[i].score >= Display(ranked)[j].score
  {
  }
}
