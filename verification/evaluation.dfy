/** The offline evaluator of `recommenders/evaluation.py`.

    Ratings `(doc, recommendation, value)` fill a judgment table: the rating
    itself, and its reverse unless that is already present. Documents with too
    few judgments are dropped. Each remaining document is then queried against
    the model under test and its recommendations are scored by precision, the
    evaluator's own "average precision" and DCG, each also in a "known only"
    mode; the per-document scores are averaged.

    numpy's NaN is `None`; ratios are reals. The DCG discount `1/log2(i+2)` is a
    parameter with `disc(0) = 1` and `0 < disc(i) <= 1`. The model's
    `get_similar` and the corpus are parameters. */
module Evaluation {
  import opened Chars

  /** A row of the `Rating` table. */
  datatype Rating = Rating(doc: int, rec: int, value: int)

  type Row = map<int, int>

  /** `test_data`: rows in insertion order (`keys`) and their contents. */
  datatype Table = Table(keys: seq<int>, rows: map<int, Row>)

  ghost predicate WellFormed(t: Table) {
    Distinct(t.keys) && (forall k :: k in t.rows <==> k in t.keys)
  }

  /** `test_data[a][b]`, if present. */
  function Cell(t: Table, a: int, b: int): Option<int> {
    if a in t.rows && b in t.rows[a] then Some(t.rows[a][b]) else None
  }

  const DefaultCutOff: int := 20
  const TopN: nat := 20

  // ---------------------------------------------------------------------------
  // Building the table

  /** Rating `x` is of the pair `(a, b)`, or of its reverse. */
  predicate Forward(x: Rating, a: int, b: int) { x.doc == a && x.rec == b }
  predicate Reverse(x: Rating, a: int, b: int) { x.rec == a && x.doc == b }

  /** Reading `test_data[k]` creates an empty row for a new `k`. */
  function Touch(t: Table, k: int): (r: Table)
    requires WellFormed(t)
    ensures WellFormed(r) && k in r.rows
    ensures forall a :: a in r.rows <==> a in t.rows || a == k
    ensures forall a, b :: Cell(r, a, b) == Cell(t, a, b)
  {
    if k in t.rows then t
    else
      var r := Table(t.keys + [k], t.rows[k := map[]]);
      assert forall a :: a in r.keys <==> a in t.keys || a == k;
      r
  }

  /** `test_data[a][b] = v` on an existing row `a`. */
  function Put(t: Table, a: int, b: int, v: int): (r: Table)
    requires WellFormed(t) && a in t.rows
    ensures WellFormed(r) && r.keys == t.keys && r.rows.Keys == t.rows.Keys
    ensures forall a', b' :: Cell(r, a', b') == if a' == a && b' == b then Some(v) else Cell(t, a', b')
  {
    t.(rows := t.rows[a := t.rows[a][b := v]])
  }

  /** One loop iteration: `test_data[d][r] = v`, then `test_data[r].setdefault(d, v)`. */
  function AddRating(t: Table, x: Rating): (r: Table)
    requires WellFormed(t)
    ensures WellFormed(r)
    ensures forall a :: a in r.rows <==> a in t.rows || a == x.doc || a == x.rec
    ensures forall a, b :: Cell(r, a, b) ==
              (if Forward(x, a, b) then Some(x.value)
               else if Reverse(x, a, b) && Cell(t, a, b).None? then Some(x.value)
               else Cell(t, a, b))
  {
    var t1 := Touch(t, x.doc);
    var t2 := Put(t1, x.doc, x.rec, x.value);
    var t3 := Touch(t2, x.rec);
    if Cell(t3, x.rec, x.doc).Some? then t3 else Put(t3, x.rec, x.doc, x.value)
  }

  /** The constructor's loop over the ratings, in order. */
  function Build(rs: seq<Rating>): (t: Table)
    ensures WellFormed(t)
    decreases |rs|
  {
    if |rs| == 0 then Table([], map[]) else AddRating(Build(rs[..|rs| - 1]), rs[|rs| - 1])
  }

  // Reference definition of the table's contents

  /** The value of the last rating of `(a, b)`. */
  function LastForward(rs: seq<Rating>, a: int, b: int): (r: Option<int>)
    ensures r.Some? ==> exists i :: 0 <= i < |rs| && Forward(rs[i], a, b) && rs[i].value == r.value
                                    && forall j :: i < j < |rs| ==> !Forward(rs[j], a, b)
    ensures r.None? ==> forall i :: 0 <= i < |rs| ==> !Forward(rs[i], a, b)
    decreases |rs|
  {
    if |rs| == 0 then None
    else if Forward(rs[|rs| - 1], a, b) then Some(rs[|rs| - 1].value)
    else
      var r := LastForward(rs[..|rs| - 1], a, b);
      assert forall i :: 0 <= i < |rs| - 1 ==> rs[..|rs| - 1][i] == rs[i];
      r
  }

  /** The value of the first rating of `(b, a)`. */
  function FirstReverse(rs: seq<Rating>, a: int, b: int): (r: Option<int>)
    ensures r.Some? ==> exists i :: 0 <= i < |rs| && Reverse(rs[i], a, b) && rs[i].value == r.value
                                    && forall j :: 0 <= j < i ==> !Reverse(rs[j], a, b)
    ensures r.None? ==> forall i :: 0 <= i < |rs| ==> !Reverse(rs[i], a, b)
    decreases |rs|
  {
    if |rs| == 0 then None
    else if Reverse(rs[0], a, b) then Some(rs[0].value)
    else
      var r := FirstReverse(rs[1..], a, b);
      assert forall i :: 1 <= i < |rs| ==> rs[1..][i - 1] == rs[i];
      r
  }

  /** What `test_data[a][b]` should hold: the last rating of `(a, b)`, else the
      first rating of `(b, a)`, else nothing. */
  function Expected(rs: seq<Rating>, a: int, b: int): Option<int> {
    if LastForward(rs, a, b).Some? then LastForward(rs, a, b) else FirstReverse(rs, a, b)
  }

  lemma {:induction false} FirstReverseSnoc(rs: seq<Rating>, x: Rating, a: int, b: int)
    ensures FirstReverse(rs + [x], a, b) ==
      if FirstReverse(rs, a, b).Some? then FirstReverse(rs, a, b)
      else if Reverse(x, a, b) then Some(x.value) else None
    decreases |rs|
  {
    if |rs| == 0 {
      assert (rs + [x])[1..] == [];
    } else {
      assert (rs + [x])[1..] == rs[1..] + [x];
      FirstReverseSnoc(rs[1..], x, a, b);
    }
  }

  /** One more rating: it wins for its own pair; for the reverse pair it counts
      only when nothing was there. */
  lemma ExpectedSnoc(rs: seq<Rating>, x: Rating, a: int, b: int)
    ensures Expected(rs + [x], a, b) ==
              (if Forward(x, a, b) then Some(x.value)
               else if Reverse(x, a, b) && Expected(rs, a, b).None? then Some(x.value)
               else Expected(rs, a, b))
  {
    assert (rs + [x])[..|rs|] == rs;
    FirstReverseSnoc(rs, x, a, b);
  }

  /** The table holds exactly the reference contents. */
  lemma {:induction false} BuildIsExpected(rs: seq<Rating>)
    ensures forall a, b :: Cell(Build(rs), a, b) == Expected(rs, a, b)
    decreases |rs|
  {
    if |rs| > 0 {
      var init, x := rs[..|rs| - 1], rs[|rs| - 1];
      assert rs == init + [x];
      BuildIsExpected(init);
      assert Build(rs) == AddRating(Build(init), x);
      forall a, b ensures Cell(Build(rs), a, b) == Expected(rs, a, b) {
        ExpectedSnoc(init, x, a, b);
      }
    }
  }

  /** Some rating names `a` as its document or its recommendation. */
  predicate Mentioned(rs: seq<Rating>, a: int) {
    exists i :: 0 <= i < |rs| && (rs[i].doc == a || rs[i].rec == a)
  }

  lemma MentionedSnoc(rs: seq<Rating>, x: Rating, a: int)
    ensures Mentioned(rs + [x], a) <==> Mentioned(rs, a) || x.doc == a || x.rec == a
  {
    var t := rs + [x];
    if Mentioned(rs, a) {
      var i :| 0 <= i < |rs| && (rs[i].doc == a || rs[i].rec == a);
      assert t[i] == rs[i];
    }
    if Mentioned(t, a) && !(x.doc == a || x.rec == a) {
      var i :| 0 <= i < |t| && (t[i].doc == a || t[i].rec == a);
      assert i < |rs| && t[i] == rs[i];
    }
    if x.doc == a || x.rec == a {
      assert t[|rs|] == x;
    }
  }

  /** A row exists for every document or recommendation mentioned by a rating, and only for those. */
  lemma {:induction false} BuildRows(rs: seq<Rating>)
    ensures forall a :: a in Build(rs).rows <==> Mentioned(rs, a)
    decreases |rs|
  {
    if |rs| > 0 {
      var init, x := rs[..|rs| - 1], rs[|rs| - 1];
      assert rs == init + [x];
      BuildRows(init);
      assert Build(rs) == AddRating(Build(init), x);
      forall a ensures a in Build(rs).rows <==> Mentioned(rs, a) {
        MentionedSnoc(init, x, a);
      }
    }
  }

  /** No two ratings share a `(doc_id, recommendation_id)` pair, as the database's
      unique constraint guarantees. */
  predicate UniquePairs(rs: seq<Rating>) {
    forall i, j :: 0 <= i < j < |rs| ==> !Forward(rs[j], rs[i].doc, rs[i].rec)
  }

  /** Under that constraint every rated pair holds exactly its rating. */
  lemma RatedPairsHold(rs: seq<Rating>, i: nat)
    requires UniquePairs(rs) && i < |rs|
    ensures Cell(Build(rs), rs[i].doc, rs[i].rec) == Some(rs[i].value)
  {
    var a, b := rs[i].doc, rs[i].rec;
    BuildIsExpected(rs);
    assert Cell(Build(rs), a, b) == Expected(rs, a, b);
    assert Forward(rs[i], a, b);
    var last := LastForward(rs, a, b);
    assert last.Some?;
    var i' :| 0 <= i' < |rs| && Forward(rs[i'], a, b) && rs[i'].value == last.value
              && forall j :: i' < j < |rs| ==> !Forward(rs[j], a, b);
    assert i' == i;
  }

  // ---------------------------------------------------------------------------
  // Cut-off

  predicate Distinct(s: seq<int>) {
    forall i, j :: 0 <= i < j < |s| ==> s[i] != s[j]
  }

  lemma DistinctTail(s: seq<int>)
    requires |s| > 0
    ensures Distinct(s) ==> Distinct(s[1..]) && s[0] !in s[1..]
  {
    if Distinct(s) {
      forall i | 0 <= i < |s[1..]| ensures s[1..][i] != s[0] { assert s[1..][i] == s[i + 1]; }
    }
  }

  function KeepKeys(keys: seq<int>, rows: map<int, Row>, cutOff: int): (r: seq<int>)
    requires forall k :: k in keys ==> k in rows
    ensures forall k :: k in r <==> k in keys && |rows[k]| >= cutOff
    ensures Distinct(keys) ==> Distinct(r)
  {
    if |keys| == 0 then []
    else
      var rest := KeepKeys(keys[1..], rows, cutOff);
      assert forall k :: k in keys <==> k == keys[0] || k in keys[1..];
      DistinctTail(keys);
      if |rows[keys[0]]| >= cutOff then
        var r := [keys[0]] + rest;
        assert forall i :: 1 <= i < |r| ==> r[i] == rest[i - 1];
        r
      else rest
  }

  /** The second loop of the constructor: rows with fewer than `cut_off` entries
      are deleted whole; the others are kept as they are, in order. */
  function CutOff(t: Table, cutOff: int): (r: Table)
    requires WellFormed(t)
    ensures WellFormed(r)
    ensures forall k :: k in r.rows <==> k in t.rows && |t.rows[k]| >= cutOff
    ensures forall k :: k in r.rows ==> r.rows[k] == t.rows[k]
  {
    var keys := KeepKeys(t.keys, t.rows, cutOff);
    Table(keys, map k | k in t.rows && |t.rows[k]| >= cutOff :: t.rows[k])
  }

  /** `Evaluator(cut_off)` over the ratings in the database. */
  function NewEvaluator(rs: seq<Rating>, cutOff: int): (t: Table)
    ensures WellFormed(t)
    ensures forall k :: k in t.rows ==> |t.rows[k]| >= cutOff
    ensures forall a, b :: a in t.rows ==> Cell(t, a, b) == Expected(rs, a, b)
  {
    BuildIsExpected(rs);
    CutOff(Build(rs), cutOff)
  }

  // ---------------------------------------------------------------------------
  // Per-document metrics

  /** `test_scores[rec]`: an unjudged id reads as 0. */
  function Score(row: Row, id: int): int {
    if id in row then row[id] else 0
  }

  /** `[rec for rec in recs if test_scores[rec] != 0]`. */
  function Known(recs: seq<int>, row: Row): (r: seq<int>)
    ensures |r| <= |recs|
    ensures forall i :: 0 <= i < |r| ==> Score(row, r[i]) != 0 && r[i] in recs
    ensures forall i :: 0 <= i < |recs| && Score(row, recs[i]) != 0 ==> recs[i] in r
    ensures (forall i :: 0 <= i < |recs| ==> Score(row, recs[i]) != 0) ==> r == recs
  {
    if |recs| == 0 then []
    else
      var rest := Known(recs[1..], row);
      assert recs == [recs[0]] + recs[1..];
      assert forall i :: 1 <= i < |recs| ==> recs[i] == recs[1..][i - 1];
      if Score(row, recs[0]) != 0 then [recs[0]] + rest else rest
  }

  /** The filter keeps the order: filtering a concatenation filters each part. */
  lemma {:induction false} KnownAppend(a: seq<int>, b: seq<int>, row: Row)
    ensures Known(a + b, row) == Known(a, row) + Known(b, row)
  {
    if |a| > 0 {
      assert (a + b)[1..] == a[1..] + b;
      KnownAppend(a[1..], b, row);
    } else {
      assert a + b == b;
    }
  }

  /** How many ids score above 0. */
  function Relevant(recs: seq<int>, row: Row): (n: nat)
    ensures n <= |recs|
  {
    if |recs| == 0 then 0 else (if Score(row, recs[0]) > 0 then 1 else 0) + Relevant(recs[1..], row)
  }

  /** Relevant ids are known ids: dropping the unknown ones keeps them all. */
  lemma {:induction false} RelevantKnown(recs: seq<int>, row: Row)
    ensures Relevant(Known(recs, row), row) == Relevant(recs, row)
  {
    if |recs| > 0 {
      RelevantKnown(recs[1..], row);
      var rest := Known(recs[1..], row);
      if Score(row, recs[0]) != 0 {
        assert ([recs[0]] + rest)[1..] == rest;
      }
    }
  }

  function Ratio(n: nat, d: nat): (r: real)
    requires 0 < d && n <= d
    ensures 0.0 <= r <= 1.0
    ensures r == 0.0 <==> n == 0
    ensures r == 1.0 <==> n == d
  {
    DivBounds(n as real, d as real);
    n as real / d as real
  }

  /** `precision`: the share of recommendations scored above 0; undefined (NaN)
      for an empty list. */
  function Precision(recs: seq<int>, row: Row, removeUnknown: bool): (r: Option<real>)
    ensures r.None? <==> (if removeUnknown then Known(recs, row) else recs) == []
    ensures r.Some? ==> 0.0 <= r.value <= 1.0
    ensures r.Some? ==> (r.value == 0.0 <==> Relevant(recs, row) == 0)
  {
    var rs := if removeUnknown then Known(recs, row) else recs;
    RelevantKnown(recs, row);
    if |rs| == 0 then None else Some(Ratio(Relevant(rs, row), |rs|))
  }

  /** `range(1, len(recs))`, keeping in known mode only the `k` whose item `recs[k-1]` is judged. */
  function KValues(recs: seq<int>, row: Row, removeUnknown: bool, k: nat): (r: seq<nat>)
    requires 1 <= k
    ensures forall i :: 0 <= i < |r| ==> k <= r[i] < |recs|
    ensures removeUnknown ==> forall i :: 0 <= i < |r| ==> Score(row, recs[r[i] - 1]) != 0
    ensures !removeUnknown ==> |r| == if k < |recs| then |recs| - k else 0
    ensures forall k' :: k <= k' < |recs| && (!removeUnknown || Score(row, recs[k' - 1]) != 0) ==> k' in r
    decreases |recs| - k
  {
    if k >= |recs| then []
    else
      var rest := KValues(recs, row, removeUnknown, k + 1);
      if removeUnknown && Score(row, recs[k - 1]) == 0 then rest
      else
        var r := [k] + rest;
        assert forall i :: 1 <= i < |r| ==> r[i] == rest[i - 1];
        r
  }

  /** A relevant item anywhere in the list makes the count positive. */
  lemma {:induction false} RelevantAt(recs: seq<int>, row: Row, i: nat)
    requires i < |recs| && Score(row, recs[i]) > 0
    ensures Relevant(recs, row) > 0
  {
    if i > 0 {
      assert recs[1..][i - 1] == recs[i];
      RelevantAt(recs[1..], row, i - 1);
    }
  }

  /** `P@k * rel(k)`: the precision of the full prefix `recs[:k]`, counted only
      when the `k`-th item is relevant. */
  function ApTerm(recs: seq<int>, row: Row, k: nat): (r: real)
    requires 1 <= k <= |recs|
    ensures 0.0 <= r <= 1.0
    ensures r == 0.0 <==> Score(row, recs[k - 1]) <= 0
  {
    var p := Precision(recs[..k], row, false).value;
    if Score(row, recs[k - 1]) > 0 then
      RelevantAt(recs[..k], row, k - 1);
      p
    else 0.0
  }

  function SumTerms(recs: seq<int>, row: Row, ks: seq<nat>): (r: real)
    requires forall i :: 0 <= i < |ks| ==> 1 <= ks[i] <= |recs|
    ensures 0.0 <= r <= |ks| as real
    ensures r == 0.0 <==> forall i :: 0 <= i < |ks| ==> Score(row, recs[ks[i] - 1]) <= 0
  {
    if |ks| == 0 then 0.0
    else
      assert forall i :: 1 <= i < |ks| ==> ks[i] == ks[1..][i - 1];
      ApTerm(recs, row, ks[0]) + SumTerms(recs, row, ks[1..])
  }

  /** `average_precision_score`: the mean of `P@k * rel(k)` over the `k` values;
      undefined (NaN) when there are none. */
  function AveragePrecision(recs: seq<int>, row: Row, removeUnknown: bool): (r: Option<real>)
    ensures r.None? <==> KValues(recs, row, removeUnknown, 1) == []
    ensures !removeUnknown ==> (r.None? <==> |recs| <= 1)
    ensures r.Some? ==> 0.0 <= r.value <= 1.0
    ensures r.Some? ==> (r.value == 0.0 <==> forall i :: 0 <= i < |recs| - 1 ==> Score(row, recs[i]) <= 0)
  {
    var ks := KValues(recs, row, removeUnknown, 1);
    if |ks| == 0 then None
    else
      var s := SumTerms(recs, row, ks);
      assert (forall i :: 0 <= i < |recs| - 1 ==> Score(row, recs[i]) <= 0) <==>
             (forall i :: 0 <= i < |ks| ==> Score(row, recs[ks[i] - 1]) <= 0) by {
        if exists i :: 0 <= i < |recs| - 1 && Score(row, recs[i]) > 0 {
          var i :| 0 <= i < |recs| - 1 && Score(row, recs[i]) > 0;
          assert i + 1 in ks;
        }
      }
      Some(MeanOf(s, |ks|))
  }

  /** A sum of `n` values in `[0, 1]`, divided by `n`. */
  function MeanOf(s: real, n: nat): (r: real)
    requires n > 0 && 0.0 <= s <= n as real
    ensures 0.0 <= r <= 1.0
    ensures r == 0.0 <==> s == 0.0
  {
    DivBounds(s, n as real);
    s / n as real
  }

  /** The last recommendation never contributes to the average precision. */
  lemma LastIgnored(recs: seq<int>, row: Row, removeUnknown: bool, x: int, y: int)
    ensures AveragePrecision(recs + [x], row, removeUnknown) == AveragePrecision(recs + [y], row, removeUnknown)
  {
    KValuesLastIgnored(recs, row, removeUnknown, x, y, 1);
    var ks := KValues(recs + [x], row, removeUnknown, 1);
    SumTermsLastIgnored(recs, row, x, y, ks);
  }

  lemma {:induction false} KValuesLastIgnored(recs: seq<int>, row: Row, removeUnknown: bool, x: int, y: int, k: nat)
    requires 1 <= k
    ensures KValues(recs + [x], row, removeUnknown, k) == KValues(recs + [y], row, removeUnknown, k)
    decreases |recs| + 1 - k
  {
    if k < |recs| + 1 {
      KValuesLastIgnored(recs, row, removeUnknown, x, y, k + 1);
      assert (recs + [x])[k - 1] == recs[k - 1] == (recs + [y])[k - 1];
    }
  }

  lemma {:induction false} SumTermsLastIgnored(recs: seq<int>, row: Row, x: int, y: int, ks: seq<nat>)
    requires forall i :: 0 <= i < |ks| ==> 1 <= ks[i] <= |recs|
    ensures SumTerms(recs + [x], row, ks) == SumTerms(recs + [y], row, ks)
    decreases |ks|
  {
    if |ks| > 0 {
      var k := ks[0];
      assert (recs + [x])[..k] == recs[..k] == (recs + [y])[..k];
      assert (recs + [x])[k - 1] == recs[k - 1] == (recs + [y])[k - 1];
      SumTermsLastIgnored(recs, row, x, y, ks[1..]);
    }
  }

  /** When every recommendation is judged, the known mode changes nothing. */
  lemma AllJudged(recs: seq<int>, row: Row)
    requires forall i :: 0 <= i < |recs| ==> Score(row, recs[i]) != 0
    ensures Precision(recs, row, true) == Precision(recs, row, false)
    ensures AveragePrecision(recs, row, true) == AveragePrecision(recs, row, false)
  {
    KValuesAllJudged(recs, row, 1);
  }

  lemma {:induction false} KValuesAllJudged(recs: seq<int>, row: Row, k: nat)
    requires 1 <= k && forall i :: 0 <= i < |recs| ==> Score(row, recs[i]) != 0
    ensures KValues(recs, row, true, k) == KValues(recs, row, false, k)
    decreases |recs| - k
  {
    if k < |recs| { KValuesAllJudged(recs, row, k + 1); }
  }

  /** The DCG discount: `disc(0) = 1` and every discount lies in `(0, 1]`. */
  ghost predicate ValidDiscount(disc: nat -> real) {
    disc(0) == 1.0 && forall i: nat :: 0.0 < disc(i) <= 1.0
  }

  /** `sum((test_scores[rec] > 0) / log2(i + 2))` with positions counted from `i`. */
  function DcgFrom(recs: seq<int>, row: Row, disc: nat -> real, i: nat): (r: real)
    ensures ValidDiscount(disc) ==> 0.0 <= r <= Relevant(recs, row) as real
    ensures ValidDiscount(disc) ==> (r == 0.0 <==> Relevant(recs, row) == 0)
    decreases |recs|
  {
    if |recs| == 0 then 0.0
    else (if Score(row, recs[0]) > 0 then disc(i) else 0.0) + DcgFrom(recs[1..], row, disc, i + 1)
  }

  /** `dcg`: in known mode positions are renumbered after the unjudged ids are dropped. */
  function Dcg(recs: seq<int>, row: Row, removeUnknown: bool, disc: nat -> real): (r: real)
    ensures ValidDiscount(disc) ==> 0.0 <= r <= Relevant(recs, row) as real
    ensures ValidDiscount(disc) ==> (r == 0.0 <==> Relevant(recs, row) == 0)
  {
    RelevantKnown(recs, row);
    DcgFrom(if removeUnknown then Known(recs, row) else recs, row, disc, 0)
  }

  /** The first item's discount is 1: a relevant top recommendation alone scores 1. */
  lemma DcgSingle(rec: int, row: Row, disc: nat -> real)
    requires ValidDiscount(disc) && Score(row, rec) > 0
    ensures Dcg([rec], row, false, disc) == 1.0
  {
    assert [rec][1..] == [];
  }

  /** In known mode the average precision still takes `P@k` over the unfiltered
      prefix `recs[:k]`: an unjudged first item halves the precision at the second. */
  lemma KnownApUnfilteredPrefix(u: int, x: int, y: int, row: Row)
    requires Score(row, u) == 0 && Score(row, x) > 0
    ensures AveragePrecision([u, x, y], row, true) == Some(0.5)
  {
    var recs := [u, x, y];
    assert KValues(recs, row, true, 3) == [];
    assert KValues(recs, row, true, 1) == [2];
    assert recs[..2] == [u, x] && [u, x][1..] == [x] && [x][1..] == [];
    assert Relevant([u, x], row) == 1;
  }

  /** The DCG instead filters first, so the item after an unjudged one moves to
      the top position and earns the full discount of 1. */
  lemma KnownDcgRenumbers(u: int, x: int, row: Row, disc: nat -> real)
    requires ValidDiscount(disc) && Score(row, u) == 0 && Score(row, x) > 0
    ensures Dcg([u, x], row, true, disc) == 1.0
    ensures Dcg([u, x], row, false, disc) == disc(1)
  {
    assert [u, x][1..] == [x] && [x][1..] == [];
    assert Known([u, x], row) == [x];
    assert DcgFrom([x], row, disc, 1) == disc(1);
  }

  // ---------------------------------------------------------------------------
  // Aggregates

  function SumDefined(vals: seq<Option<real>>): real {
    if |vals| == 0 then 0.0 else (if vals[0].Some? then vals[0].value else 0.0) + SumDefined(vals[1..])
  }

  function CountDefined(vals: seq<Option<real>>): (n: nat)
    ensures n <= |vals|
    ensures n == 0 <==> forall i :: 0 <= i < |vals| ==> vals[i].None?
  {
    if |vals| == 0 then 0
    else
      var n := (if vals[0].Some? then 1 else 0) + CountDefined(vals[1..]);
      assert forall i :: 1 <= i < |vals| ==> vals[1..][i - 1] == vals[i];
      n
  }

  /** Every defined value lies in `[0, hi]`, or is merely non-negative when `hi` is `None`. */
  predicate Within(vals: seq<Option<real>>, hi: Option<real>) {
    forall i :: 0 <= i < |vals| && vals[i].Some? ==> 0.0 <= vals[i].value && (hi.Some? ==> vals[i].value <= hi.value)
  }

  lemma {:induction false} SumWithin(vals: seq<Option<real>>, hi: Option<real>)
    ensures Within(vals, hi) ==> 0.0 <= SumDefined(vals)
    ensures Within(vals, hi) && hi == Some(1.0) ==> SumDefined(vals) <= CountDefined(vals) as real
  {
    if |vals| > 0 && Within(vals, hi) {
      assert Within(vals[1..], hi) by {
        forall i | 0 <= i < |vals[1..]| && vals[1..][i].Some? ensures 0.0 <= vals[1..][i].value && (hi.Some? ==> vals[1..][i].value <= hi.value) {
          assert vals[1..][i] == vals[i + 1];
        }
      }
      SumWithin(vals[1..], hi);
    }
  }

  /** `a[a == a].mean()`: the mean of the defined values; NaN when there are none. */
  function MeanDefined(vals: seq<Option<real>>): (r: Option<real>)
    ensures r.None? <==> forall i :: 0 <= i < |vals| ==> vals[i].None?
    ensures r.Some? && Within(vals, Some(1.0)) ==> 0.0 <= r.value <= 1.0
    ensures r.Some? && Within(vals, None) ==> 0.0 <= r.value
  {
    var n := CountDefined(vals);
    if n == 0 then None
    else
      SumWithin(vals, Some(1.0));
      SumWithin(vals, None);
      DivBounds(SumDefined(vals), n as real);
      Some(SumDefined(vals) / n as real)
  }

  lemma DivBounds(s: real, n: real)
    requires n > 0.0
    ensures 0.0 <= s ==> 0.0 <= s / n
    ensures s <= n ==> s / n <= 1.0
    ensures s / n == 0.0 <==> s == 0.0
    ensures s / n == 1.0 <==> s == n
  {
    assert (s / n) * n == s;
  }

  /** `np.average(values)`: NaN as soon as one value is NaN, or when there are none. */
  function MeanAll(vals: seq<Option<real>>): (r: Option<real>)
    ensures r.None? <==> |vals| == 0 || exists i :: 0 <= i < |vals| && vals[i].None?
    ensures r.Some? ==> r == MeanDefined(vals)
  {
    if |vals| == 0 || exists i :: 0 <= i < |vals| && vals[i].None? then None
    else MeanDefined(vals)
  }

  /** Averaging only the defined values ignores the undefined ones. */
  lemma {:induction false} MeanDefinedSkipsNone(vals: seq<Option<real>>, i: nat)
    requires i <= |vals|
    ensures MeanDefined(vals[..i] + [None] + vals[i..]) == MeanDefined(vals)
  {
    SkipNone(vals, i);
  }

  lemma {:induction false} SkipNone(vals: seq<Option<real>>, i: nat)
    requires i <= |vals|
    ensures SumDefined(vals[..i] + [None] + vals[i..]) == SumDefined(vals)
    ensures CountDefined(vals[..i] + [None] + vals[i..]) == CountDefined(vals)
    decreases i
  {
    var w := vals[..i] + [None] + vals[i..];
    if i == 0 {
      assert w[1..] == vals;
    } else {
      assert w[0] == vals[0];
      assert w[1..] == vals[1..][..i - 1] + [None] + vals[1..][i - 1..];
      SkipNone(vals[1..], i - 1);
    }
  }

  // ---------------------------------------------------------------------------
  // Evaluation over the table

  /** Every row's document can be looked up in the corpus. */
  predicate Indexable<D>(t: Table, corpus: seq<D>) {
    forall i :: 0 <= i < |t.keys| ==> 0 <= t.keys[i] < |corpus|
  }

  /** One metric value per row, in row order, each from the model's answer for that
      row's own document `corpus[k]` with `top_n = 20`. */
  function PerDoc<D>(t: Table, corpus: seq<D>, getSimilar: (D, nat) -> seq<int>,
                     metric: (seq<int>, Row) -> Option<real>): (r: seq<Option<real>>)
    requires WellFormed(t) && Indexable(t, corpus)
    ensures |r| == |t.keys|
    ensures forall i :: 0 <= i < |r| ==> r[i] == metric(getSimilar(corpus[t.keys[i]], TopN), t.rows[t.keys[i]])
  {
    seq(|t.keys|, i requires 0 <= i < |t.keys| => metric(getSimilar(corpus[t.keys[i]], TopN), t.rows[t.keys[i]]))
  }

  function MeanPrecisionAtK<D>(t: Table, corpus: seq<D>, getSimilar: (D, nat) -> seq<int>, removeUnknown: bool): (r: Option<real>)
    requires WellFormed(t) && Indexable(t, corpus)
    ensures r.Some? ==> 0.0 <= r.value <= 1.0
  {
    MeanDefined(PerDoc(t, corpus, getSimilar, (recs, row) => Precision(recs, row, removeUnknown)))
  }

  function MapScore<D>(t: Table, corpus: seq<D>, getSimilar: (D, nat) -> seq<int>): (r: Option<real>)
    requires WellFormed(t) && Indexable(t, corpus)
    ensures r.Some? ==> 0.0 <= r.value <= 1.0
  {
    MeanAll(PerDoc(t, corpus, getSimilar, (recs, row) => AveragePrecision(recs, row, false)))
  }

  function MapScoreKnown<D>(t: Table, corpus: seq<D>, getSimilar: (D, nat) -> seq<int>): (r: Option<real>)
    requires WellFormed(t) && Indexable(t, corpus)
    ensures r.Some? ==> 0.0 <= r.value <= 1.0
  {
    MeanDefined(PerDoc(t, corpus, getSimilar, (recs, row) => AveragePrecision(recs, row, true)))
  }

  function MeanDcg<D>(t: Table, corpus: seq<D>, getSimilar: (D, nat) -> seq<int>, removeUnknown: bool,
                      disc: nat -> real): (r: Option<real>)
    requires WellFormed(t) && Indexable(t, corpus)
    ensures r.None? <==> |t.keys| == 0
    ensures r.Some? && ValidDiscount(disc) ==> 0.0 <= r.value
  {
    var vals := PerDoc(t, corpus, getSimilar, (recs, row) => Some(Dcg(recs, row, removeUnknown, disc)));
    assert |t.keys| > 0 ==> vals[0].Some?;
    MeanDefined(vals)
  }

  /** The six scores `evaluate` reports. */
  datatype Metric = Map | MapKnown | PAtK | PAtKKnown | MeanDcgAll | MeanDcgKnown

  /** The key each score is reported under. */
  function Name(m: Metric): string {
    match m
    case Map => "map"
    case MapKnown => "map_known"
    case PAtK => "mean_p_at_k"
    case PAtKKnown => "mean_p_at_k_known"
    case MeanDcgAll => "mean_dcg"
    case MeanDcgKnown => "mean_dcg_known"
  }

  /** Different scores are reported under different keys. */
  lemma NamesDistinct(m: Metric, m': Metric)
    requires Name(m) == Name(m')
    ensures m == m'
  {
  }

  /** The dictionary `evaluate` returns, one entry per score. */
  function Report(ap: Option<real>, apKnown: Option<real>, p: Option<real>, pKnown: Option<real>,
                  dcg: Option<real>, dcgKnown: Option<real>): (r: map<Metric, Option<real>>)
    ensures r.Keys == {Map, MapKnown, PAtK, PAtKKnown, MeanDcgAll, MeanDcgKnown}
    ensures r[Map] == ap && r[MapKnown] == apKnown && r[PAtK] == p && r[PAtKKnown] == pKnown
    ensures r[MeanDcgAll] == dcg && r[MeanDcgKnown] == dcgKnown
  {
    map[Map := ap, MapKnown := apKnown, PAtK := p, PAtKKnown := pKnown, MeanDcgAll := dcg, MeanDcgKnown := dcgKnown]
  }

  /** Holds a score in `[0, 1]`, or nothing. */
  predicate Unit(v: Option<real>) {
    v.Some? ==> 0.0 <= v.value <= 1.0
  }

  /** `evaluate`: all six scores; the precision-like ones lie in `[0, 1]`, the
      DCG ones are non-negative and defined exactly when some document is left. */
  function Evaluate<D>(t: Table, corpus: seq<D>, getSimilar: (D, nat) -> seq<int>, disc: nat -> real): (r: map<Metric, Option<real>>)
    requires WellFormed(t) && Indexable(t, corpus)
    ensures r.Keys == {Map, MapKnown, PAtK, PAtKKnown, MeanDcgAll, MeanDcgKnown}
    ensures Unit(r[Map]) && Unit(r[MapKnown]) && Unit(r[PAtK]) && Unit(r[PAtKKnown])
    ensures ValidDiscount(disc) ==>
              (r[MeanDcgAll].Some? ==> 0.0 <= r[MeanDcgAll].value) && (r[MeanDcgKnown].Some? ==> 0.0 <= r[MeanDcgKnown].value)
    ensures r[MeanDcgAll].None? <==> |t.keys| == 0
    ensures r[MeanDcgKnown].None? <==> |t.keys| == 0
  {
    var ap := MapScore(t, corpus, getSimilar);
    var apKnown := MapScoreKnown(t, corpus, getSimilar);
    var p := MeanPrecisionAtK(t, corpus, getSimilar, false);
    var pKnown := MeanPrecisionAtK(t, corpus, getSimilar, true);
    var dcg := MeanDcg(t, corpus, getSimilar, false, disc);
    var dcgKnown := MeanDcg(t, corpus, getSimilar, true, disc);
    Report(ap, apKnown, p, pKnown, dcg, dcgKnown)
  }
}
