/** Top-3 selection over the similarity scores (app.py:34-35). The scores
    come from an embedding model and cosine similarity; here they are an
    abstract sequence of integers, one per catalog record. */
module Ranking {
  import opened Catalog

  /** The number of recommendations shown. */
  const TopCount: nat := 3

  function Min(a: nat, b: nat): nat {
    if a <= b then a else b
  }

  predicate ValidIndices(n: nat, p: seq<nat>) {
    forall i :: 0 <= i < |p| ==> p[i] < n
  }

  predicate Distinct(p: seq<nat>) {
    forall i, j :: 0 <= i < j < |p| ==> p[i] != p[j]
  }

  /** Valid indices listed in non-decreasing order of score. */
  predicate Ascending(scores: seq<int>, p: seq<nat>) {
    ValidIndices(|scores|, p) && forall i, j :: 0 <= i < j < |p| ==> scores[p[i]] <= scores[p[j]]
  }

  /** What `np.argsort(scores)` returns: every index exactly once, ordered by
      ascending score. Ties may come in any order (the default sort kind is
      not stable). */
  predicate IsArgsort(scores: seq<int>, p: seq<nat>) {
    && |p| == |scores|
    && Ascending(scores, p)
    && Distinct(p)
    && forall u :: 0 <= u < |scores| ==> u in p
  }

  /** A correct top-`k` pick: `min(k, n)` distinct valid indices, in
      non-increasing score order, none scoring below an index left out. */
  predicate IsTopSelection(scores: seq<int>, k: nat, r: seq<nat>) {
    && |r| == Min(k, |scores|)
    && ValidIndices(|scores|, r)
    && Distinct(r)
    && (forall i, j :: 0 <= i < j < |r| ==> scores[r[i]] >= scores[r[j]])
    && (forall i, u :: 0 <= i < |r| && 0 <= u < |scores| && u !in r ==> scores[u] <= scores[r[i]])
  }

  /** Insert index `x` into a list sorted by score, after every index whose
      score does not exceed its own. */
  function Insert(scores: seq<int>, p: seq<nat>, x: nat): (r: seq<nat>)
    requires ValidIndices(|scores|, p) && x < |scores|
    ensures ValidIndices(|scores|, r)
    ensures multiset(r) == multiset(p) + multiset{x}
  {
    if p == [] then [x]
    else if scores[x] < scores[p[0]] then [x] + p
    else
      assert p == [p[0]] + p[1..];
      [p[0]] + Insert(scores, p[1..], x)
  }

  lemma {:induction false} InsertAscending(scores: seq<int>, p: seq<nat>, x: nat)
    requires Ascending(scores, p) && x < |scores|
    ensures Ascending(scores, Insert(scores, p, x))
  {
    if p == [] {
    } else if scores[x] < scores[p[0]] {
      HeadLeast(scores, p);
      ConsAscending(scores, x, p);
    } else {
      var rest := Insert(scores, p[1..], x);
      InsertAscending(scores, p[1..], x);
      HeadLeast(scores, p);
      InsertMembers(scores, p[1..], x);
      assert forall y :: y in p[1..] ==> y in p;
      ConsAscending(scores, p[0], rest);
    }
  }

  lemma {:induction false} InsertDistinct(scores: seq<int>, p: seq<nat>, x: nat)
    requires ValidIndices(|scores|, p) && x < |scores|
    requires Distinct(p) && x !in p
    ensures Distinct(Insert(scores, p, x))
  {
    if p == [] {
    } else if scores[x] < scores[p[0]] {
      ConsDistinct(x, p);
    } else {
      var rest := Insert(scores, p[1..], x);
      InsertDistinct(scores, p[1..], x);
      assert p[0] !in rest by {
        assert forall j :: 0 <= j < |p| - 1 ==> p[1..][j] == p[j + 1];
        assert p[0] !in p[1..];
        InsertMembers(scores, p[1..], x);
      }
      ConsDistinct(p[0], rest);
    }
  }

  lemma InsertMembers(scores: seq<int>, p: seq<nat>, x: nat)
    requires ValidIndices(|scores|, p) && x < |scores|
    ensures forall y :: y in Insert(scores, p, x) <==> y in p || y == x
  {
    var r := Insert(scores, p, x);
    forall y
      ensures y in r <==> y in p || y == x
    {
      assert y in r <==> y in multiset(r);
      assert y in p <==> y in multiset(p);
    }
  }

  /** The head of an ascending list scores no more than anything after it. */
  lemma HeadLeast(scores: seq<int>, p: seq<nat>)
    requires Ascending(scores, p) && |p| > 0
    ensures forall y :: y in p ==> scores[p[0]] <= scores[y]
  {
    forall y | y in p
      ensures scores[p[0]] <= scores[y]
    {
      var j :| 0 <= j < |p| && p[j] == y;
    }
  }

  lemma ConsAscending(scores: seq<int>, a: nat, p: seq<nat>)
    requires Ascending(scores, p) && a < |scores|
    requires forall y :: y in p ==> scores[a] <= scores[y]
    ensures Ascending(scores, [a] + p)
  {
    var r := [a] + p;
    assert forall i :: 1 <= i < |r| ==> r[i] == p[i - 1];
    assert forall i :: 1 <= i < |r| ==> r[i] in p;
  }

  lemma ConsDistinct(a: nat, p: seq<nat>)
    requires Distinct(p) && a !in p
    ensures Distinct([a] + p)
  {
    var r := [a] + p;
    assert forall i :: 1 <= i < |r| ==> r[i] == p[i - 1];
  }

  /** An insertion-sort argsort of the first `n` indices. */
  function ArgsortPrefix(scores: seq<int>, n: nat): (r: seq<nat>)
    requires n <= |scores|
    ensures |r| == n
    ensures Ascending(scores, r) && Distinct(r)
    ensures forall u :: u in r <==> 0 <= u < n
  {
    if n == 0 then []
    else
      var p := ArgsortPrefix(scores, n - 1);
      InsertAscending(scores, p, n - 1);
      InsertDistinct(scores, p, n - 1);
      InsertMembers(scores, p, n - 1);
      var r := Insert(scores, p, n - 1);
      assert |r| == |multiset(r)|;
      r
  }

  /** `np.argsort(scores)`, resolving ties by catalog order; any other tie
      order is covered by `TopOfArgsort`. */
  function Argsort(scores: seq<int>): (p: seq<nat>)
    ensures IsArgsort(scores, p)
  {
    ArgsortPrefix(scores, |scores|)
  }

  /** `p[::-1]` */
  function Reverse(p: seq<nat>): (r: seq<nat>)
    ensures |r| == |p|
    ensures forall i :: 0 <= i < |p| ==> r[i] == p[|p| - 1 - i]
    ensures forall x :: x in r <==> x in p
  {
    var r := seq(|p|, i requires 0 <= i < |p| => p[|p| - 1 - i]);
    assert forall k :: 0 <= k < |p| ==> r[|p| - 1 - k] == p[k];
    r
  }

  /** `p[::-1][:3]` */
  function TopOf(p: seq<nat>): (r: seq<nat>)
    ensures |r| == Min(TopCount, |p|)
    ensures forall i :: 0 <= i < |r| ==> r[i] == p[|p| - 1 - i]
    ensures forall k :: |p| - |r| <= k < |p| ==> p[k] in r
  {
    var r := Reverse(p)[..Min(TopCount, |p|)];
    assert forall k :: |p| - |r| <= k < |p| ==> r[|p| - 1 - k] == p[k];
    r
  }

  /** Whatever tie order argsort chose, reversing it and keeping three
      indices is a correct top-3 pick. */
  lemma TopOfArgsort(scores: seq<int>, p: seq<nat>)
    requires IsArgsort(scores, p)
    ensures IsTopSelection(scores, TopCount, TopOf(p))
  {
    var r := TopOf(p);
    var n := |p|;
    var m := |r|;
    forall i, u | 0 <= i < m && 0 <= u < |scores| && u !in r
      ensures scores[u] <= scores[r[i]]
    {
      assert u in p;
      var j :| 0 <= j < n && p[j] == u;
    }
  }

  /** `np.argsort(similarities)[::-1][:3]` (app.py:34). */
  function TopIndices(scores: seq<int>): (r: seq<nat>)
    ensures IsTopSelection(scores, TopCount, r)
  {
    var p := Argsort(scores);
    TopOfArgsort(scores, p);
    TopOf(p)
  }

  /** `[careers[i] for i in top_indices]` (app.py:35): the records at a
      correct top-3 pick, best match first. */
  function Recommend(catalog: seq<Career>, scores: seq<int>): (r: seq<Career>)
    requires |scores| == |catalog|
    ensures |r| == Min(TopCount, |catalog|)
    ensures exists top :: IsTopSelection(scores, TopCount, top)
                          && |top| == |r| && forall i :: 0 <= i < |r| ==> r[i] == catalog[top[i]]
  {
    var top := TopIndices(scores);
    seq(|top|, i requires 0 <= i < |top| => catalog[top[i]])
  }

  /** Equally scored indices keep their catalog order. */
  predicate Stable(scores: seq<int>, p: seq<nat>) {
    && ValidIndices(|scores|, p)
    && forall a, b :: 0 <= a < b < |p| && scores[p[a]] == scores[p[b]] ==> p[a] < p[b]
  }

  /** Putting an index in front keeps ties in index order when it is
      below every equally scored index after it. */
  lemma StableCons(scores: seq<int>, h: nat, p: seq<nat>)
    requires Stable(scores, p) && h < |scores|
    requires forall y :: y in p && scores[y] == scores[h] ==> h < y
    ensures Stable(scores, [h] + p)
  {
    var r := [h] + p;
    assert forall b :: 1 <= b < |r| ==> r[b] == p[b - 1] && p[b - 1] in p;
  }

  /** Inserting an index above every listed one keeps equal scores in
      index order. */
  lemma {:induction false} InsertStable(scores: seq<int>, p: seq<nat>, x: nat)
    requires Ascending(scores, p) && Stable(scores, p) && x < |scores|
    requires forall y :: y in p ==> y < x
    ensures Stable(scores, Insert(scores, p, x))
  {
    if p == [] {
    } else if scores[x] < scores[p[0]] {
      HeadLeast(scores, p);
      StableCons(scores, x, p);
    } else {
      var tail := p[1..];
      assert forall k :: 0 <= k < |tail| ==> tail[k] == p[k + 1];
      assert forall y :: y in tail ==> y in p;
      InsertStable(scores, tail, x);
      var rest := Insert(scores, tail, x);
      InsertMembers(scores, tail, x);
      forall y | y in rest && scores[y] == scores[p[0]]
        ensures p[0] < y
      {
        if y == x {
          assert p[0] in p;
        } else {
          var k :| 0 <= k < |tail| && tail[k] == y;
          assert p[k + 1] == y;
        }
      }
      StableCons(scores, p[0], rest);
    }
  }

  /** The insertion sort keeps ties in catalog order. */
  lemma {:induction false} ArgsortPrefixStable(scores: seq<int>, n: nat)
    requires n <= |scores|
    ensures Stable(scores, ArgsortPrefix(scores, n))
  {
    if n > 0 {
      var p := ArgsortPrefix(scores, n - 1);
      ArgsortPrefixStable(scores, n - 1);
      InsertStable(scores, p, n - 1);
    }
  }

  /** Reversing a stable order puts the later of two equally scored
      indices first. */
  lemma ReverseTies(scores: seq<int>, p: seq<nat>, i: nat, j: nat)
    requires Stable(scores, p) && i < j < |scores| && scores[i] == scores[j]
    ensures var r := Reverse(p);
            forall a, b :: 0 <= a < |r| && 0 <= b < |r| && r[a] == j && r[b] == i ==> a < b
  {
    var r := Reverse(p);
    var n := |p|;
    forall a, b | 0 <= a < |r| && 0 <= b < |r| && r[a] == j && r[b] == i
      ensures a < b
    {
      assert p[n - 1 - a] == j && p[n - 1 - b] == i;
    }
  }

  /** With the stable argsort, of two equally scored records the later one
      comes first once the order is reversed. */
  lemma TiesLaterFirst(scores: seq<int>, i: nat, j: nat)
    requires i < j < |scores| && scores[i] == scores[j]
    ensures var r := Reverse(Argsort(scores));
            forall a, b :: 0 <= a < |r| && 0 <= b < |r| && r[a] == j && r[b] == i ==> a < b
  {
    ArgsortPrefixStable(scores, |scores|);
    ReverseTies(scores, Argsort(scores), i, j);
  }
}
