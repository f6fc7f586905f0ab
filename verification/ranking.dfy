/** The ranking rule of the LSI and LDA recommenders (`recommenders/models.py`,
    `recommenders/lsi.py`): `np.argsort(-sims)[1:]`, the corpus indices ordered
    by descending similarity with the best one dropped.

    Similarities come from gensim and are taken as given reals. numpy's default
    sort is not stable, so nothing here depends on the order of equal scores. */
module Ranking {

  /** `0 .. n-1` in order. */
  function Indices(n: nat): (r: seq<nat>)
    ensures |r| == n
    ensures forall i :: 0 <= i < n ==> r[i] == i
  {
    if n == 0 then [] else Indices(n - 1) + [n - 1]
  }

  /** Scores never increase along `order`. */
  predicate Descending(scores: seq<real>, order: seq<nat>)
    requires forall k :: 0 <= k < |order| ==> order[k] < |scores|
  {
    forall a, b :: 0 <= a < b < |order| ==> scores[order[a]] >= scores[order[b]]
  }

  predicate InRange(order: seq<nat>, n: nat) {
    forall k :: 0 <= k < |order| ==> order[k] < n
  }

  /** No score along `order` exceeds `v`. */
  predicate Below(scores: seq<real>, order: seq<nat>, v: real)
    requires InRange(order, |scores|)
  {
    forall k :: 0 <= k < |order| ==> scores[order[k]] <= v
  }

  lemma DescendingCons(scores: seq<real>, x: nat, rest: seq<nat>)
    requires x < |scores| && InRange(rest, |scores|) && Descending(scores, rest) && Below(scores, rest, scores[x])
    ensures InRange([x] + rest, |scores|) && Descending(scores, [x] + rest)
  {
    var r := [x] + rest;
    assert forall b :: 1 <= b < |r| ==> r[b] == rest[b - 1];
  }

  /** Reordering keeps a bound. */
  lemma BelowPermutation(scores: seq<real>, a: seq<nat>, b: seq<nat>, v: real)
    requires InRange(b, |scores|) && Below(scores, b, v) && multiset(a) == multiset(b)
    ensures InRange(a, |scores|) && Below(scores, a, v)
  {
    forall k | 0 <= k < |a| ensures a[k] < |scores| && scores[a[k]] <= v {
      assert a[k] in multiset(a);
      assert a[k] in b;
      var c :| 0 <= c < |b| && b[c] == a[k];
    }
  }

  /** Insert index `i` into a descending order, before the first lower score. */
  function Insert(scores: seq<real>, i: nat, order: seq<nat>): (r: seq<nat>)
    requires i < |scores| && InRange(order, |scores|) && Descending(scores, order)
    ensures multiset(r) == multiset(order) + multiset{i}
    ensures InRange(r, |scores|) && Descending(scores, r)
    decreases |order|
  {
    if |order| == 0 || scores[order[0]] < scores[i] then
      InsertFront(scores, i, order);
      [i] + order
    else
      var rest := Insert(scores, i, order[1..]);
      InsertBehind(scores, i, order, rest);
      [order[0]] + rest
  }

  lemma InsertFront(scores: seq<real>, i: nat, order: seq<nat>)
    requires i < |scores| && InRange(order, |scores|) && Descending(scores, order)
    requires |order| == 0 || scores[order[0]] < scores[i]
    ensures multiset([i] + order) == multiset(order) + multiset{i}
    ensures InRange([i] + order, |scores|) && Descending(scores, [i] + order)
  {
    assert Below(scores, order, scores[i]) by {
      forall k | 0 <= k < |order| ensures scores[order[k]] <= scores[i] {
        if k > 0 { assert scores[order[0]] >= scores[order[k]]; }
      }
    }
    DescendingCons(scores, i, order);
  }

  lemma InsertBehind(scores: seq<real>, i: nat, order: seq<nat>, rest: seq<nat>)
    requires i < |scores| && InRange(order, |scores|) && Descending(scores, order)
    requires |order| > 0 && scores[order[0]] >= scores[i]
    requires multiset(rest) == multiset(order[1..]) + multiset{i}
    requires InRange(rest, |scores|) && Descending(scores, rest)
    ensures multiset([order[0]] + rest) == multiset(order) + multiset{i}
    ensures InRange([order[0]] + rest, |scores|) && Descending(scores, [order[0]] + rest)
  {
    var x, tail := order[0], order[1..];
    assert order == [x] + tail;
    assert Below(scores, tail + [i], scores[x]) by {
      forall k | 0 <= k < |tail + [i]| ensures scores[(tail + [i])[k]] <= scores[x] {
        if k < |tail| { assert (tail + [i])[k] == order[k + 1]; }
      }
    }
    BelowPermutation(scores, rest, tail + [i], scores[x]);
    DescendingCons(scores, x, rest);
  }

  /** Insertion sort of the first `n` indices by descending score. */
  function SortPrefix(scores: seq<real>, n: nat): (r: seq<nat>)
    requires n <= |scores|
    ensures multiset(r) == multiset(Indices(n))
    ensures InRange(r, |scores|) && Descending(scores, r)
  {
    if n == 0 then []
    else
      var last: nat := n - 1;
      assert Indices(n) == Indices(last) + [last];
      assert multiset(Indices(n)) == multiset(Indices(last)) + multiset{last};
      Insert(scores, last, SortPrefix(scores, last))
  }

  /** `np.argsort(-sims)`: a permutation of the indices, best score first. */
  function Argsort(scores: seq<real>): (r: seq<nat>)
    ensures multiset(r) == multiset(Indices(|scores|))
    ensures InRange(r, |scores|) && Descending(scores, r)
  {
    SortPrefix(scores, |scores|)
  }

  /** A permutation of the indices lists each index exactly once. */
  lemma PermutationDistinct(order: seq<nat>, n: nat)
    requires multiset(order) == multiset(Indices(n))
    ensures |order| == n
    ensures forall i :: 0 <= i < n ==> i in order
    ensures forall a, b :: 0 <= a < b < |order| ==> order[a] != order[b]
  {
    assert |order| == |multiset(order)| == |multiset(Indices(n))| == n;
    forall i | 0 <= i < n ensures i in order {
      assert Indices(n)[i] == i;
      assert i in multiset(Indices(n));
    }
    forall a, b | 0 <= a < b < |order| ensures order[a] != order[b] {
      if order[a] == order[b] {
        var x := order[a];
        IndicesOnce(n, x);
        TwiceInMultiset(order, a, b);
      }
    }
  }

  lemma IndicesOnce(n: nat, x: nat)
    ensures multiset(Indices(n))[x] <= 1
  {
    if n > 0 {
      IndicesOnce(n - 1, x);
      assert Indices(n) == Indices(n - 1) + [n - 1];
      var m: nat := n - 1;
      if x == m {
        assert x !in Indices(m) by {
          forall k | 0 <= k < m ensures Indices(m)[k] != x {}
        }
      }
    }
  }

  lemma TwiceInMultiset(order: seq<nat>, a: nat, b: nat)
    requires a < b < |order| && order[a] == order[b]
    ensures multiset(order)[order[a]] >= 2
  {
    var x := order[a];
    assert order == order[..a] + [x] + order[a + 1..b] + [x] + order[b + 1..];
  }

  /** `get_similar_ids` and `get_similar_for_text` (identical for LSI and LDA):
      `np.argsort(-sims)[1:]`. */
  function SimilarIds(sims: seq<real>): (r: seq<nat>)
    ensures |sims| > 0 ==> |r| == |sims| - 1
    ensures |sims| == 0 ==> r == []
    ensures InRange(r, |sims|) && Descending(sims, r)
    ensures forall a, b :: 0 <= a < b < |r| ==> r[a] != r[b]
  {
    var order := Argsort(sims);
    PermutationDistinct(order, |sims|);
    if |order| == 0 then [] else order[1..]
  }

  /** Exactly one index is left out, and it has the top score. */
  lemma DroppedIsBest(sims: seq<real>)
    requires |sims| > 0
    ensures exists m :: 0 <= m < |sims| && m !in SimilarIds(sims)
                        && (forall i :: 0 <= i < |sims| ==> sims[m] >= sims[i])
                        && (forall i :: 0 <= i < |sims| && i != m ==> i in SimilarIds(sims))
  {
    var m := DroppedIndex(sims);
    DroppedWitness(sims, m, SimilarIds(sims));
  }

  /** The index `SimilarIds` leaves out is the first of the argsort. */
  lemma DroppedIndex(sims: seq<real>) returns (m: nat)
    requires |sims| > 0
    ensures m < |sims| && m !in SimilarIds(sims)
    ensures forall i :: 0 <= i < |sims| ==> sims[m] >= sims[i]
    ensures forall i :: 0 <= i < |sims| && i != m ==> i in SimilarIds(sims)
  {
    var order := Argsort(sims);
    PermutationDistinct(order, |sims|);
    FirstIsBest(sims, order);
    RestIsOthers(order, |sims|);
    assert SimilarIds(sims) == order[1..];
    m := order[0];
  }

  lemma DroppedWitness(sims: seq<real>, m: nat, ids: seq<nat>)
    requires m < |sims| && m !in ids
    requires forall i :: 0 <= i < |sims| ==> sims[m] >= sims[i]
    requires forall i :: 0 <= i < |sims| && i != m ==> i in ids
    ensures exists m :: 0 <= m < |sims| && m !in ids
                        && (forall i :: 0 <= i < |sims| ==> sims[m] >= sims[i])
                        && (forall i :: 0 <= i < |sims| && i != m ==> i in ids)
  {
  }

  lemma FirstIsBest(sims: seq<real>, order: seq<nat>)
    requires InRange(order, |sims|) && Descending(sims, order) && |order| > 0
    requires forall i :: 0 <= i < |sims| ==> i in order
    ensures forall i :: 0 <= i < |sims| ==> sims[order[0]] >= sims[i]
  {
    forall i | 0 <= i < |sims| ensures sims[order[0]] >= sims[i] {
      assert i in order;
      var c :| 0 <= c < |order| && order[c] == i;
    }
  }

  lemma RestIsOthers(order: seq<nat>, n: nat)
    requires |order| == n > 0
    requires forall i :: 0 <= i < n ==> i in order
    requires forall a, b :: 0 <= a < b < |order| ==> order[a] != order[b]
    ensures order[0] !in order[1..]
    ensures forall i :: 0 <= i < n && i != order[0] ==> i in order[1..]
  {
    forall c | 0 <= c < |order[1..]| ensures order[1..][c] != order[0] {
      assert order[1..][c] == order[c + 1];
    }
    forall i | 0 <= i < n && i != order[0] ensures i in order[1..] {
      assert i in order;
      var c :| 0 <= c < |order| && order[c] == i;
      assert order[1..][c - 1] == i;
    }
  }
}
