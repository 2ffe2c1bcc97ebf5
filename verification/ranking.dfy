/** Ranking of scored records: Python's `sorted(scored, key=lambda x:
    x['score'], reverse=True)[:3]`.  Python's sort is stable also with
    `reverse=True`, so records with equal scores keep their corpus order.
    Scores are compared as plain numbers; nothing is filtered out. */
module Ranking {
  import opened Seqs

  /** A corpus record extended with its score (`record | {"score": s}`). */
  datatype Scored<R> = Scored(record: R, score: real)

  /** The number of matches shown. */
  const MaxMatches: nat := 3

  /** Scores never increase along `s`. */
  predicate SortedByScore<R>(s: seq<Scored<R>>) {
    forall i, j :: 0 <= i < j < |s| ==> s[i].score >= s[j].score
  }

  /** The entries of `s` whose score is `k`, in their order in `s`. */
  function WithScore<R>(s: seq<Scored<R>>, k: real): (r: seq<Scored<R>>)
    ensures forall x :: x in r ==> x in s && x.score == k
  {
    if s == [] then []
    else (if s[0].score == k then [s[0]] else []) + WithScore(s[1..], k)
  }

  /** `ys` lists, score by score, the same entries as `xs` in the same
      relative order: the property a stable sort keeps. */
  ghost predicate SameTies<R>(xs: seq<Scored<R>>, ys: seq<Scored<R>>) {
    forall k :: WithScore(ys, k) == WithScore(xs, k)
  }

  /** Inserts `x` into a list sorted by descending score, in front of every
      entry scoring no more than it. */
  function Insert<R(==)>(x: Scored<R>, s: seq<Scored<R>>): (r: seq<Scored<R>>)
    ensures multiset(r) == multiset(s) + multiset{x}
  {
    if s == [] || x.score >= s[0].score then
      [x] + s
    else
      assert s == [s[0]] + s[1..];
      [s[0]] + Insert(x, s[1..])
  }

  /** Insertion keeps a list sorted. */
  lemma {:induction false} InsertSorted<R>(x: Scored<R>, s: seq<Scored<R>>)
    requires SortedByScore(s)
    ensures SortedByScore(Insert(x, s))
    decreases |s|
  {
    if s != [] && x.score < s[0].score {
      var rest := Insert(x, s[1..]);
      InsertSorted(x, s[1..]);
      var r := [s[0]] + rest;
      assert Insert(x, s) == r;
      forall j | 0 < j < |r|
        ensures r[0].score >= r[j].score
      {
        assert r[j] in multiset(rest);
        if r[j] != x {
          assert r[j] in s[1..];
        }
      }
    }
  }

  /** Insertion puts `x` in front of the entries with its score. */
  lemma {:induction false} InsertTies<R>(x: Scored<R>, s: seq<Scored<R>>, k: real)
    ensures WithScore(Insert(x, s), k) == (if x.score == k then [x] else []) + WithScore(s, k)
    decreases |s|
  {
    if s == [] || x.score >= s[0].score {
      WithScoreCons(x, s, k);
    } else {
      InsertTies(x, s[1..], k);
      assert Insert(x, s) == [s[0]] + Insert(x, s[1..]);
      assert s == [s[0]] + s[1..];
      ConsTies(s[0], x, Insert(x, s[1..]), s[1..], k);
    }
  }

  /** Putting a higher-scored `h` in front of both sides keeps an equation
      between tie groups that has `x` in front on the right. */
  lemma ConsTies<R>(h: Scored<R>, x: Scored<R>, rest: seq<Scored<R>>, tail: seq<Scored<R>>, k: real)
    requires h.score > x.score
    requires WithScore(rest, k) == (if x.score == k then [x] else []) + WithScore(tail, k)
    ensures WithScore([h] + rest, k) == (if x.score == k then [x] else []) + WithScore([h] + tail, k)
  {
    WithScoreCons(h, rest, k);
    WithScoreCons(h, tail, k);
    if h.score == k {
      assert WithScore(rest, k) == WithScore(tail, k);
    }
  }

  lemma WithScoreCons<R>(x: Scored<R>, s: seq<Scored<R>>, k: real)
    ensures WithScore([x] + s, k) == (if x.score == k then [x] else []) + WithScore(s, k)
  {
    assert ([x] + s)[1..] == s;
  }

  /** Stable sort by descending score. */
  function SortByScore<R(==)>(xs: seq<Scored<R>>): (r: seq<Scored<R>>)
    ensures SortedByScore(r)
    ensures multiset(r) == multiset(xs)
    ensures SameTies(xs, r)
  {
    if xs == [] then []
    else
      var rest := SortByScore(xs[1..]);
      assert xs == [xs[0]] + xs[1..];
      InsertSorted(xs[0], rest);
      assert forall k :: WithScore(Insert(xs[0], rest), k) == WithScore(xs, k) by {
        forall k
          ensures WithScore(Insert(xs[0], rest), k) == WithScore(xs, k)
        {
          InsertTies(xs[0], rest, k);
        }
      }
      Insert(xs[0], rest)
  }

  /** `sorted(scored, key=score, reverse=True)[:3]`. */
  function TopMatches<R(==)>(scored: seq<Scored<R>>): (r: seq<Scored<R>>)
    ensures |r| == Min(MaxMatches, |scored|)
    ensures SortedByScore(r)
    ensures multiset(r) <= multiset(scored)
    ensures forall x, y :: x in r && y in multiset(scored) - multiset(r) ==> x.score >= y.score
    ensures forall k :: IsPrefix(WithScore(r, k), WithScore(scored, k))
  {
    var sorted := SortByScore(scored);
    var n := Min(MaxMatches, |scored|);
    PrefixOfSorted(scored, sorted, n);
    sorted[..n]
  }

  /** A prefix of a stable sort of `xs` keeps its first entries: it is
      sorted, it is drawn from `xs`, it outranks the rest, and within each
      score it lists the earliest entries of `xs`. */
  lemma PrefixOfSorted<R>(xs: seq<Scored<R>>, sorted: seq<Scored<R>>, n: nat)
    requires SortedByScore(sorted) && multiset(sorted) == multiset(xs) && SameTies(xs, sorted)
    requires n <= |sorted|
    ensures SortedByScore(sorted[..n])
    ensures multiset(sorted[..n]) <= multiset(xs)
    ensures forall x, y :: x in sorted[..n] && y in multiset(xs) - multiset(sorted[..n]) ==> x.score >= y.score
    ensures forall k :: IsPrefix(WithScore(sorted[..n], k), WithScore(xs, k))
  {
    assert sorted == sorted[..n] + sorted[n..];
    PrefixOutranks(sorted, n);
    PrefixTies(xs, sorted, n);
  }

  /** No entry after a prefix of a sorted list scores above one inside it. */
  lemma PrefixOutranks<R>(sorted: seq<Scored<R>>, n: nat)
    requires SortedByScore(sorted)
    requires n <= |sorted|
    ensures forall x, y :: x in sorted[..n] && y in multiset(sorted) - multiset(sorted[..n]) ==> x.score >= y.score
  {
    var r, tail := sorted[..n], sorted[n..];
    assert sorted == r + tail;
    assert multiset(sorted) == multiset(r) + multiset(tail);
    forall x, y | x in r && y in multiset(sorted) - multiset(r)
      ensures x.score >= y.score
    {
      assert y in multiset(tail);
      assert y in tail;
      var i :| 0 <= i < n && r[i] == x;
      var j :| 0 <= j < |tail| && tail[j] == y;
      assert sorted[i] == x && sorted[n + j] == y;
    }
  }

  /** Within each score, a prefix of a stable sort lists the earliest
      entries of the input. */
  lemma PrefixTies<R>(xs: seq<Scored<R>>, sorted: seq<Scored<R>>, n: nat)
    requires SameTies(xs, sorted)
    requires n <= |sorted|
    ensures forall k :: IsPrefix(WithScore(sorted[..n], k), WithScore(xs, k))
  {
    var r, tail := sorted[..n], sorted[n..];
    assert sorted == r + tail;
    forall k
      ensures IsPrefix(WithScore(r, k), WithScore(xs, k))
    {
      WithScoreAppend(r, tail, k);
      assert WithScore(xs, k) == WithScore(r, k) + WithScore(tail, k);
    }
  }

  /** Every entry of the top three is an entry of the scored list. */
  lemma TopMatchesDrawn<R>(scored: seq<Scored<R>>)
    ensures forall x :: x in TopMatches(scored) ==> x in scored
  {
    var top := TopMatches(scored);
    forall x | x in top
      ensures x in scored
    {
      assert x in multiset(top);
      assert x in multiset(scored);
    }
  }

  predicate IsPrefix<T(==)>(a: seq<T>, b: seq<T>) {
    |a| <= |b| && b[..|a|] == a
  }

  lemma {:induction false} WithScoreAppend<R>(a: seq<Scored<R>>, b: seq<Scored<R>>, k: real)
    ensures WithScore(a + b, k) == WithScore(a, k) + WithScore(b, k)
    decreases |a|
  {
    if a == [] {
      assert a + b == b;
    } else {
      assert (a + b)[1..] == a[1..] + b;
      WithScoreAppend(a[1..], b, k);
    }
  }

  // ---------------------------------------------------------------------
  // The stable sort is unique

  /** A non-empty list has an entry with the score of its head. */
  lemma NonEmptyHasHeadScore<R>(s: seq<Scored<R>>)
    ensures s != [] ==> WithScore(s, s[0].score) != []
  {
  }

  /** Every score in a sorted list is at most the first one. */
  lemma SortedHeadIsMax<R>(s: seq<Scored<R>>, x: Scored<R>)
    requires SortedByScore(s) && x in s
    ensures x.score <= s[0].score
  {
    var i :| 0 <= i < |s| && s[i] == x;
    if i > 0 {
      assert s[0].score >= s[i].score;
    }
  }

  /** Two lists sorted by descending score that agree on the order of
      every group of equal scores are the same list. */
  lemma {:induction false} SortedTiesUnique<R>(a: seq<Scored<R>>, b: seq<Scored<R>>)
    requires SortedByScore(a) && SortedByScore(b)
    requires SameTies(a, b)
    ensures a == b
    decreases |a|
  {
    if a == [] {
      NonEmptyHasHeadScore(b);
    } else {
      var ka := a[0].score;
      assert WithScore(a, ka)[0] == a[0];
      assert WithScore(b, ka) != [];
      assert b != [];
      var kb := b[0].score;
      assert WithScore(b, kb)[0] == b[0];
      SortedHeadIsMax(a, WithScore(a, kb)[0]);
      SortedHeadIsMax(b, WithScore(b, ka)[0]);
      assert ka == kb;
      assert a[0] == b[0];
      forall k
        ensures WithScore(b[1..], k) == WithScore(a[1..], k)
      {
        assert WithScore(a, k) == WithScore(b, k);
        assert a == [a[0]] + a[1..] && b == [b[0]] + b[1..];
        WithScoreCons(a[0], a[1..], k);
        WithScoreCons(b[0], b[1..], k);
        if k == ka {
          assert WithScore(a[1..], k) == WithScore(a, k)[1..];
          assert WithScore(b[1..], k) == WithScore(b, k)[1..];
        } else {
          assert a[0].score != k;
          assert b[0].score != k;
          assert WithScore(a[1..], k) == WithScore(a, k);
          assert WithScore(b[1..], k) == WithScore(b, k);
        }
      }
      SortedTiesUnique(a[1..], b[1..]);
      assert a == [a[0]] + a[1..] && b == [b[0]] + b[1..];
    }
  }

  /** `SortByScore` is THE stable descending sort: any list sorted by
      descending score that keeps the order of equal scores equals it. */
  lemma StableSortUnique<R>(xs: seq<Scored<R>>, ys: seq<Scored<R>>)
    requires SortedByScore(ys)
    requires SameTies(xs, ys)
    ensures ys == SortByScore(xs)
  {
    SortedTiesUnique(ys, SortByScore(xs));
  }

  /** When every record scores the same (for example all 0), the ranking
      is the first three records in corpus order: zero scores are not
      filtered out. */
  lemma AllTiedKeepsCorpusOrder<R>(scored: seq<Scored<R>>, k: real)
    requires forall i :: 0 <= i < |scored| ==> scored[i].score == k
    ensures TopMatches(scored) == scored[..Min(MaxMatches, |scored|)]
  {
    StableSortUnique(scored, scored);
  }
}
