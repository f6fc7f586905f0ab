/** `re.sub` over the normaliser's patterns.

    Python's `re.sub` scans the text left to right: at each position it asks the
    matcher for a match; on a match it emits the replacement and resumes after
    it, otherwise it copies one character and moves on. No pattern here can
    match the empty text, so the scan always advances. */
module Rewrite {
  import opened Chars
  import opened Pattern
  import opened Layout

  /** A substitution: a pattern and its replacement. */
  datatype Rule =
    | Replace(alts: seq<Alt>, text: seq<char>)         // fixed replacement text
    | CollapseCaps                                   // base.py's spaced-capitals fixer
    | JoinLines                                      // the line joiner, replacement `\1 `

  /** The end of the match at `p`, if any. */
  function MatchAt(rule: Rule, s: seq<char>, p: nat): (r: Option<nat>)
    requires p < |s|
    ensures r.Some? ==> p < r.value <= |s|
  {
    match rule
    case Replace(alts, _) =>
      var m := FirstMatch(alts, s, p);
      if m.Some? then AltsWellFormed(alts); NonEmptyAdvances(alts, s, p); m else m
    case CollapseCaps => CapMatchAt(s, p)
    case JoinLines => JoinMatchAt(s, p)
  }

  /** What the match `s[p..j]` is replaced by. */
  function Replacement(rule: Rule, s: seq<char>, p: nat, j: nat): seq<char>
    requires p < j <= |s|
  {
    match rule
    case Replace(_, t) => t
    case CollapseCaps => " " + RemoveBlanks(s[p + 1..j]) + " "
    case JoinLines => [s[p], ' ']
  }

  /** No match starts at or after `p`. */
  predicate Untouched(rule: Rule, s: seq<char>, p: nat)
  {
    forall q :: p <= q < |s| ==> MatchAt(rule, s, q).None?
  }

  /** The scan from `p` on. */
  function SubFrom(rule: Rule, s: seq<char>, p: nat): (r: seq<char>)
    requires p <= |s|
    ensures Untouched(rule, s, p) ==> r == s[p..]
    decreases |s| - p
  {
    if p == |s| then []
    else match MatchAt(rule, s, p)
      case Some(j) => Replacement(rule, s, p, j) + SubFrom(rule, s, j)
      case None =>
        var rest := SubFrom(rule, s, p + 1);
        assert Untouched(rule, s, p) ==> [s[p]] + rest == s[p..];
        [s[p]] + rest
  }

  /** `re.sub(pattern, replacement, s)`: a text nothing matches comes back as it is. */
  function Sub(rule: Rule, s: seq<char>): (r: seq<char>)
    ensures Untouched(rule, s, 0) ==> r == s
  {
    SubFrom(rule, s, 0)
  }

  lemma SubFromMatch(rule: Rule, s: seq<char>, p: nat)
    requires p < |s| && MatchAt(rule, s, p).Some?
    ensures SubFrom(rule, s, p) == Replacement(rule, s, p, MatchAt(rule, s, p).value) + SubFrom(rule, s, MatchAt(rule, s, p).value)
  {
  }

  lemma SubFromCopy(rule: Rule, s: seq<char>, p: nat)
    requires p < |s| && MatchAt(rule, s, p).None?
    ensures SubFrom(rule, s, p) == [s[p]] + SubFrom(rule, s, p + 1)
  {
  }

  /** Where nothing matches, the scan copies the text. */
  lemma {:induction false} SubCopiesPrefix(rule: Rule, s: seq<char>, p: nat, q: nat)
    requires p <= q <= |s|
    requires forall k :: p <= k < q ==> MatchAt(rule, s, k).None?
    ensures SubFrom(rule, s, p) == s[p..q] + SubFrom(rule, s, q)
    decreases q - p
  {
    if p < q {
      SubCopiesPrefix(rule, s, p + 1, q);
      SubFromCopy(rule, s, p);
      ConsSlice(s, p, q, SubFrom(rule, s, q));
    }
  }

  /** `re.sub` at the leftmost match `s[q..j]`: the text before it is kept and
      the match becomes its replacement. */
  lemma LeftmostRewrite(rule: Rule, s: seq<char>, q: nat, j: nat)
    requires q < |s| && MatchAt(rule, s, q) == Some(j)
    requires forall k :: 0 <= k < q ==> MatchAt(rule, s, k).None?
    ensures Sub(rule, s) == s[..q] + Replacement(rule, s, q, j) + SubFrom(rule, s, j)
  {
    var rep, rest := Replacement(rule, s, q, j), SubFrom(rule, s, j);
    SubLeftmost(rule, s, 0, q);
    assert SubFrom(rule, s, 0) == s[0..q] + (rep + rest);
    assert s[0..q] + (rep + rest) == s[..q] + rep + rest;
  }

  lemma ConsSlice(s: seq<char>, p: nat, q: nat, x: seq<char>)
    requires p < q <= |s|
    ensures [s[p]] + (s[p + 1..q] + x) == s[p..q] + x
  {
    assert s[p..q] == [s[p]] + s[p + 1..q];
  }

  /** The scan copies everything before the leftmost match, replaces that match
      and resumes right after it. */
  lemma SubLeftmost(rule: Rule, s: seq<char>, p: nat, q: nat)
    requires p <= q < |s| && MatchAt(rule, s, q).Some?
    requires forall k :: p <= k < q ==> MatchAt(rule, s, k).None?
    ensures SubFrom(rule, s, p)
            == s[p..q] + (Replacement(rule, s, q, MatchAt(rule, s, q).value) + SubFrom(rule, s, MatchAt(rule, s, q).value))
  {
    SubCopiesPrefix(rule, s, p, q);
    SubFromMatch(rule, s, q);
  }

  /** A pattern each of whose alternatives contains the literal `w` leaves every
      text without `w` unchanged. */
  lemma AnchoredUntouched(alts: seq<Alt>, t: seq<char>, w: seq<char>, ci: bool, s: seq<char>)
    requires Anchored(alts, w, ci) && |w| > 0
    requires forall q :: 0 <= q < |s| ==> !LitAt(s, q, w, ci)
    ensures Sub(Replace(alts, t), s) == s
  {
    forall q | 0 <= q < |s| ensures MatchAt(Replace(alts, t), s, q).None? {
      AnchoredMatch(alts, w, ci, s, q);
    }
  }

  /** The whitespace rules only ever change whitespace. */
  predicate WhitespaceOnly(rule: Rule) {
    rule.CollapseCaps? || rule.JoinLines?
  }

  lemma ReplacementKeepsNonSpace(rule: Rule, s: seq<char>, p: nat, j: nat)
    requires WhitespaceOnly(rule) && p < |s| && MatchAt(rule, s, p) == Some(j)
    ensures NonSpace(Replacement(rule, s, p, j)) == NonSpace(s[p..j])
  {
    assert s[p..j] == [s[p]] + s[p + 1..j];
    NonSpaceConcat([s[p]], s[p + 1..j]);
    if rule.CollapseCaps? {
      CapMatchSound(s, p);
      NonSpaceConcat(" " + RemoveBlanks(s[p + 1..j]), " ");
      NonSpaceConcat(" ", RemoveBlanks(s[p + 1..j]));
      NonSpaceRemoveBlanks(s[p + 1..j]);
    } else {
      assert JoinRel(s, p, j) by { JoinMatchIsLongest(s, p); }
      NonSpaceAllSpace(s, p + 1, j);
      NonSpaceConcat([s[p]], " ");
    }
  }

  lemma {:induction false} SubKeepsNonSpace(rule: Rule, s: seq<char>, p: nat)
    requires WhitespaceOnly(rule) && p <= |s|
    ensures NonSpace(SubFrom(rule, s, p)) == NonSpace(s[p..])
    decreases |s| - p
  {
    if p < |s| {
      var m := MatchAt(rule, s, p);
      if m.Some? {
        var j := m.value;
        SubKeepsNonSpace(rule, s, j);
        ReplacementKeepsNonSpace(rule, s, p, j);
        SubFromMatch(rule, s, p);
        NonSpaceSplit(SubFrom(rule, s, p), Replacement(rule, s, p, j), SubFrom(rule, s, j), s, p, j);
      } else {
        SubKeepsNonSpace(rule, s, p + 1);
        SubFromCopy(rule, s, p);
        assert [s[p]] == s[p..p + 1];
        NonSpaceSplit(SubFrom(rule, s, p), s[p..p + 1], SubFrom(rule, s, p + 1), s, p, p + 1);
      }
    }
  }

  /** Several substitutions, each over the result of the one before, in list order. */
  function SubAll(rules: seq<Rule>, s: seq<char>): (r: seq<char>)
    ensures (forall i :: 0 <= i < |rules| ==> Untouched(rules[i], s, 0)) ==> r == s
  {
    if |rules| == 0 then s
    else
      var t := Sub(rules[0], s);
      assert (forall i :: 0 <= i < |rules| ==> Untouched(rules[i], s, 0)) ==>
             (forall i :: 0 <= i < |rules[1..]| ==> Untouched(rules[1..][i], t, 0)) by {
        if forall i :: 0 <= i < |rules| ==> Untouched(rules[i], s, 0) {
          forall i | 0 <= i < |rules[1..]| ensures Untouched(rules[1..][i], t, 0) {
            assert rules[1..][i] == rules[i + 1];
          }
        }
      }
      SubAll(rules[1..], t)
  }

  /** Running two lists of substitutions one after the other is running their concatenation. */
  lemma {:induction false} SubAllAppend(a: seq<Rule>, b: seq<Rule>, s: seq<char>)
    ensures SubAll(a + b, s) == SubAll(b, SubAll(a, s))
  {
    if |a| > 0 {
      assert (a + b)[1..] == a[1..] + b;
      SubAllAppend(a[1..], b, Sub(a[0], s));
    } else {
      assert a + b == b;
    }
  }
}
