/** The older normaliser of `text_processing/tika_parsing.py`, run on the text
    the Tika server extracts: statute abbreviations, spaced capitals, line
    joining, amounts of money, and a final `strip`. */
module Tika {
  import opened Chars
  import opened Pattern
  import opened Layout
  import opened Rewrite
  import opened Statutes
  import opened Normalizer

  // ---------------------------------------------------------------------------
  // fix_cap_spaces: finditer over the original text, then str.replace(g, ..., 1)

  /** `CAP_SPACES.finditer(text)` from `p` on: the leftmost non-overlapping matches,
      as start and end positions. */
  function CapMatches(s: seq<char>, p: nat): (r: seq<(nat, nat)>)
    requires p <= |s|
    ensures forall k :: 0 <= k < |r| ==> p <= r[k].0 < r[k].1 <= |s| && TikaCapMatchAt(s, r[k].0) == Some(r[k].1)
    ensures forall k :: 0 <= k < |r| - 1 ==> r[k].1 <= r[k + 1].0
    decreases |s| - p
  {
    if p == |s| then []
    else match TikaCapMatchAt(s, p)
      case Some(j) =>
        var rest := CapMatches(s, j);
        var r := [(p, j)] + rest;
        assert forall k :: 1 <= k < |r| ==> r[k] == rest[k - 1];
        r
      case None => CapMatches(s, p + 1)
  }

  /** No spaced-capitals match starts in `[a, b)`. */
  ghost predicate NoCapBetween(s: seq<char>, a: nat, b: nat) {
    forall q :: a <= q < b && q < |s| ==> TikaCapMatchAt(s, q).None?
  }

  /** The first position `finditer` reports from `p`, or the end of the text. */
  function FirstStart(s: seq<char>, r: seq<(nat, nat)>): nat {
    if |r| > 0 then r[0].0 else |s|
  }

  /** `finditer` skips no match: no match starts before the first one reported,
      and none starts between two consecutive ones. */
  lemma {:induction false} CapMatchesLeftmost(s: seq<char>, p: nat)
    requires p <= |s|
    ensures NoCapBetween(s, p, FirstStart(s, CapMatches(s, p)))
    ensures var r := CapMatches(s, p);
            forall k :: 0 <= k < |r| - 1 ==> NoCapBetween(s, r[k].1, r[k + 1].0)
    decreases |s| - p
  {
    if p < |s| {
      match TikaCapMatchAt(s, p)
      case Some(j) =>
        CapMatchesLeftmost(s, j);
        CapMatchesStep(s, p);
        LeftmostCons(s, p, j, CapMatches(s, j), CapMatches(s, p));
      case None =>
        CapMatchesLeftmost(s, p + 1);
        CapMatchesStep(s, p);
        NoCapExtend(s, p, FirstStart(s, CapMatches(s, p)));
    }
  }

  lemma CapMatchesStep(s: seq<char>, p: nat)
    requires p < |s|
    ensures TikaCapMatchAt(s, p).Some? ==> CapMatches(s, p) == [(p, TikaCapMatchAt(s, p).value)] + CapMatches(s, TikaCapMatchAt(s, p).value)
    ensures TikaCapMatchAt(s, p).None? ==> CapMatches(s, p) == CapMatches(s, p + 1)
  {
  }

  lemma NoCapExtend(s: seq<char>, p: nat, b: nat)
    requires p < |s| && TikaCapMatchAt(s, p).None? && NoCapBetween(s, p + 1, b)
    ensures NoCapBetween(s, p, b)
  {
  }

  /** The gaps of `[(p, j)] + rest` are the gap from `j` and the gaps of `rest`. */
  lemma LeftmostCons(s: seq<char>, p: nat, j: nat, rest: seq<(nat, nat)>, r: seq<(nat, nat)>)
    requires r == [(p, j)] + rest
    requires NoCapBetween(s, j, FirstStart(s, rest))
    requires forall k :: 0 <= k < |rest| - 1 ==> NoCapBetween(s, rest[k].1, rest[k + 1].0)
    ensures NoCapBetween(s, p, FirstStart(s, r))
    ensures forall k :: 0 <= k < |r| - 1 ==> NoCapBetween(s, r[k].1, r[k + 1].0)
  {
    forall k | 0 <= k < |r| - 1 ensures NoCapBetween(s, r[k].1, r[k + 1].0) {
      if k > 0 {
        assert r[k] == rest[k - 1] && r[k + 1] == rest[k];
      }
    }
  }

  /** `w` occurs in `t` at `i`. */
  predicate Occurs(t: seq<char>, i: nat, w: seq<char>) {
    i + |w| <= |t| && t[i..i + |w|] == w
  }

  /** `t.find(w, i)`: the first occurrence of `w` at or after `i`. */
  function FindFrom(t: seq<char>, w: seq<char>, i: nat): (r: Option<nat>)
    requires i <= |t|
    ensures r.Some? ==> i <= r.value && Occurs(t, r.value, w)
    ensures forall k: nat :: i <= k && (r.None? || k < r.value) ==> !Occurs(t, k, w)
    decreases |t| - i
  {
    if i + |w| > |t| then None
    else if t[i..i + |w|] == w then Some(i)
    else FindFrom(t, w, i + 1)
  }

  /** `t.replace(pat, repl, 1)`: the first occurrence only. */
  function ReplaceFirst(t: seq<char>, pat: seq<char>, repl: seq<char>): (r: seq<char>)
    ensures (forall k: nat :: !Occurs(t, k, pat)) ==> r == t
    ensures forall i: nat :: Occurs(t, i, pat) && (forall k: nat :: k < i ==> !Occurs(t, k, pat))
                             ==> r == t[..i] + repl + t[i + |pat|..]
  {
    match FindFrom(t, pat, 0)
    case None => t
    case Some(i) =>
      forall i': nat | Occurs(t, i', pat) && (forall k: nat :: k < i' ==> !Occurs(t, k, pat)) ensures i' == i {
      }
      t[..i] + repl + t[i + |pat|..]
  }

  /** Replacing text by text with the same non-blank characters keeps them. */
  lemma ReplaceFirstKeepsNonSpace(t: seq<char>, pat: seq<char>, repl: seq<char>)
    requires NonSpace(repl) == NonSpace(pat)
    ensures NonSpace(ReplaceFirst(t, pat, repl)) == NonSpace(t)
  {
    match FindFrom(t, pat, 0)
    case None =>
    case Some(i) =>
      var a, b := t[..i], t[i + |pat|..];
      assert t == a + pat + b;
      NonSpaceConcat(a + repl, b);
      NonSpaceConcat(a, repl);
      NonSpaceConcat(a + pat, b);
      NonSpaceConcat(a, pat);
  }

  /** The loop body over the groups found, in order. */
  function Collapse(t: seq<char>, groups: seq<seq<char>>): (r: seq<char>)
    ensures NonSpace(r) == NonSpace(t)
    decreases |groups|
  {
    if |groups| == 0 then t
    else
      var g := groups[0];
      NonSpaceRemoveBlanks(g);
      ReplaceFirstKeepsNonSpace(t, g, RemoveBlanks(g));
      Collapse(ReplaceFirst(t, g, RemoveBlanks(g)), groups[1..])
  }

  /** The matched groups, in the order `finditer` yields them. */
  function Groups(s: seq<char>, ms: seq<(nat, nat)>): (r: seq<seq<char>>)
    requires forall k :: 0 <= k < |ms| ==> ms[k].0 <= ms[k].1 <= |s|
    ensures |r| == |ms|
    ensures forall k :: 0 <= k < |r| ==> r[k] == s[ms[k].0..ms[k].1]
  {
    seq(|ms|, k requires 0 <= k < |ms| => s[ms[k].0..ms[k].1])
  }

  /** `fix_cap_spaces` of `tika_parsing.py`: only blanks change, and a text
      without spaced capitals is left alone. */
  function TikaFixCapSpaces(s: seq<char>): (r: seq<char>)
    ensures NonSpace(r) == NonSpace(s)
    ensures (forall q :: 0 <= q < |s| ==> TikaCapMatchAt(s, q).None?) ==> r == s
  {
    var ms := CapMatches(s, 0);
    Collapse(s, Groups(s, ms))
  }

  /** Each group `finditer` reports is the longest spaced-capitals run at its start. */
  lemma CapMatchesAreLongest(s: seq<char>, k: nat)
    requires k < |CapMatches(s, 0)|
    ensures TikaCapRel(s, CapMatches(s, 0)[k].0, CapMatches(s, 0)[k].1)
    ensures forall j: nat :: TikaCapRel(s, CapMatches(s, 0)[k].0, j) ==> j <= CapMatches(s, 0)[k].1
  {
    TikaCapMatchIsLongest(s, CapMatches(s, 0)[k].0);
  }

  // ---------------------------------------------------------------------------
  // remove_numbers: \d[\d ]+руб.( \d\d коп.)?, case-sensitive, `.` stops at newlines

  const TikaAmount: seq<Step> := [One(Digit), Run(DigitOrBlank, 1), Lit("руб", false), One(NotNewline)]
  const TikaKopecks: seq<Step> := [Lit(" ", false), One(Digit), One(Digit), Lit(" коп", false), One(NotNewline)]

  /** The optional kopecks group is tried first. */
  const TikaMoney: Rule := Replace([TikaAmount + TikaKopecks, TikaAmount], "SUM")

  /** `remove_numbers` of `tika_parsing.py`: a text never mentioning "руб" is unchanged. */
  function TikaRemoveNumbers(s: seq<char>): (r: seq<char>)
    ensures (forall q :: 0 <= q < |s| ==> !LitAt(s, q, "руб", false)) ==> r == s
  {
    if forall q :: 0 <= q < |s| ==> !LitAt(s, q, "руб", false) then
      assert TikaMoney.alts[0][2] == Lit("руб", false) && TikaMoney.alts[1][2] == Lit("руб", false);
      AnchoredUntouched(TikaMoney.alts, "SUM", "руб", false, s);
      Sub(TikaMoney, s)
    else Sub(TikaMoney, s)
  }

  /** The kopecks are part of the amount whenever they follow it; otherwise the
      rouble amount alone is replaced. */
  lemma TikaMoneyPrefersKopecks(s: seq<char>, p: nat, j: nat)
    requires p < |s|
    ensures Rel(TikaAmount + TikaKopecks, s, p, j) ==>
              MatchAt(TikaMoney, s, p).Some? && MatchAt(TikaMoney, s, p) == Possessive(TikaAmount + TikaKopecks, s, p) && j <= MatchAt(TikaMoney, s, p).value
    ensures Rel(TikaAmount, s, p, j) ==> MatchAt(TikaMoney, s, p).Some?
  {
    var alts := TikaMoney.alts;
    AltsWellFormed(alts);
    if Rel(alts[0], s, p, j) {
      FirstMatchIsFirstLongest(alts, s, p, 0, j);
      PossessiveLongest(alts[0], s, p, j);
    }
    if Rel(alts[1], s, p, j) {
      FirstMatchIsFirstLongest(alts, s, p, 1, j);
    }
  }

  // ---------------------------------------------------------------------------
  // parse

  /** A text that none of the four rewriting steps of `parse` touches: no "кодекс"
      in any case, no spaced capitals, no line break to join, no "руб". */
  predicate NothingToRewrite(c: seq<char>) {
    forall q :: 0 <= q < |c| ==>
      !LitAt(c, q, "кодекс", true) && TikaCapMatchAt(c, q).None? &&
      JoinMatchAt(c, q).None? && !LitAt(c, q, "руб", false)
  }

  /** `parse`: `None` when the document could not be read, otherwise the
      normalised, stripped content; a text with nothing to rewrite is only
      stripped. */
  function Parse(content: Option<seq<char>>): (r: Option<seq<char>>)
    ensures r.None? <==> content.None?
    ensures r.Some? ==> Stripped(r.value)
    ensures content.Some? && NothingToRewrite(content.value) ==> r == Some(Strip(content.value))
  {
    match content
    case None => None
    case Some(c) =>
      if NothingToRewrite(c) then
        StepsUntouched(c);
        Some(Strip(TikaRemoveNumbers(RemoveNewlines(TikaFixCapSpaces(Abbreviate(c))))))
      else Some(Strip(TikaRemoveNumbers(RemoveNewlines(TikaFixCapSpaces(Abbreviate(c))))))
  }

  /** Each of the four steps leaves a text with nothing to rewrite as it is. */
  lemma StepsUntouched(c: seq<char>)
    requires NothingToRewrite(c)
    ensures Abbreviate(c) == c && TikaFixCapSpaces(c) == c
    ensures RemoveNewlines(c) == c && TikaRemoveNumbers(c) == c
  {
  }

}
