/** `remove_numbers` of `text_processing/base.py`: money amounts become `SUM`,
    then every run of five or more digits becomes `NUM`. */
module Numbers {
  import opened Chars
  import opened Pattern
  import opened Rewrite

  // `\d[\d\s]+([,.]\d\d\s*)?руб(\.|л[а-я]+)(\s+\d\d\s*коп(\.|[а-я]+))?`, case-sensitive.
  // The optional groups and the alternations are spelled out as twelve linear
  // alternatives in the order the backtracking matcher tries them: each optional
  // group taken before it is skipped, each alternation left to right.

  const Amount: Alt := [One(Digit), Run(DigitOrSpace, 1)]
  const Cents: Alt := [One(CommaOrDot), One(Digit), One(Digit), Run(Space, 0)]
  const Rub: Alt := [Lit("руб", false)]
  const RubDot: Alt := [Lit(".", false)]
  const RubWord: Alt := [Lit("л", false), Run(CyrLower, 1)]
  const KopDot: Alt := [Run(Space, 1), One(Digit), One(Digit), Run(Space, 0), Lit("коп", false), Lit(".", false)]
  const KopWord: Alt := [Run(Space, 1), One(Digit), One(Digit), Run(Space, 0), Lit("коп", false), Run(CyrLower, 1)]

  /** The amount with or without the `[,.]\d\d\s*` fraction, followed by `руб`. */
  const WithCents: Alt := Then(Then(Amount, Cents), Rub)
  const WholeOnly: Alt := Then(Amount, Rub)

  const Money: Rule := Replace([
    Then(Then(WithCents, RubDot), KopDot),
    Then(Then(WithCents, RubDot), KopWord),
    Then(WithCents, RubDot),
    Then(Then(WithCents, RubWord), KopDot),
    Then(Then(WithCents, RubWord), KopWord),
    Then(WithCents, RubWord),
    Then(Then(WholeOnly, RubDot), KopDot),
    Then(Then(WholeOnly, RubDot), KopWord),
    Then(WholeOnly, RubDot),
    Then(Then(WholeOnly, RubWord), KopDot),
    Then(Then(WholeOnly, RubWord), KopWord),
    Then(WholeOnly, RubWord)], "SUM")

  /** `\d{5,}`. */
  const LongNumber: Rule := Replace([[Run(Digit, 5)]], "NUM")

  /** No run of five or more digits. */
  predicate ShortDigitRuns(t: seq<char>) {
    forall k, m :: 0 <= k <= m <= |t| && All(t, k, m, Digit) ==> m - k <= 4
  }

  /** `remove_numbers`. */
  function RemoveNumbers(s: seq<char>): (r: seq<char>)
    ensures ShortDigitRuns(r)
  {
    var t := Sub(Money, s);
    LongNumbersGone(t, 0);
    Sub(LongNumber, t)
  }

  /** An amount in roubles that is the first money match of the text becomes
      `SUM` in the first pass, so the `NUM` pass never sees its digits. */
  lemma AmountBecomesSum(s: seq<char>, p: nat, k: nat, j: nat)
    requires p < |s| && k < |Money.alts| && Rel(Money.alts[k], s, p, j)
    requires forall q :: 0 <= q < p ==> MatchAt(Money, s, q).None?
    ensures MatchAt(Money, s, p).Some?
    ensures Sub(Money, s) == s[..p] + "SUM" + SubFrom(Money, s, MatchAt(Money, s, p).value)
  {
    AltsWellFormed(Money.alts);
    FirstMatchIsFirstLongest(Money.alts, s, p, k, j);
    SubLeftmost(Money, s, 0, p);
    assert s[0..p] == s[..p];
  }

  /** The `\d{5,}` scanner matches exactly where at least five digits start. */
  lemma LongNumberAt(s: seq<char>, p: nat)
    requires p < |s|
    ensures MatchAt(LongNumber, s, p) == if Span(s, p, Digit) - p >= 5 then Some(Span(s, p, Digit)) else None
  {
    var steps := [Run(Digit, 5)];
    assert steps[1..] == [];
    assert FirstMatch(LongNumber.alts, s, p) == Possessive(steps, s, p);
  }

  /** A run of at most four digits is copied; a longer one becomes `NUM`. */
  lemma DigitRun(s: seq<char>, p: nat)
    requires p <= |s|
    ensures Span(s, p, Digit) - p >= 5 ==> SubFrom(LongNumber, s, p) == "NUM" + SubFrom(LongNumber, s, Span(s, p, Digit))
    ensures Span(s, p, Digit) - p < 5 ==> SubFrom(LongNumber, s, p) == s[p..Span(s, p, Digit)] + SubFrom(LongNumber, s, Span(s, p, Digit))
  {
    var e := Span(s, p, Digit);
    if e - p >= 5 {
      LongNumberAt(s, p);
      SubFromMatch(LongNumber, s, p);
    } else {
      ShortRunCopied(s, p);
    }
  }

  lemma {:induction false} ShortRunCopied(s: seq<char>, p: nat)
    requires p <= |s| && Span(s, p, Digit) - p < 5
    ensures SubFrom(LongNumber, s, p) == s[p..Span(s, p, Digit)] + SubFrom(LongNumber, s, Span(s, p, Digit))
    decreases |s| - p
  {
    var e := Span(s, p, Digit);
    if p < e {
      var rest := SubFrom(LongNumber, s, e);
      LongNumberAt(s, p);
      SubFromCopy(LongNumber, s, p);
      assert Span(s, p + 1, Digit) == e;
      ShortRunCopied(s, p + 1);
      ConsSlice(s, p, e, rest);
    }
  }

  /** Two texts with no long digit run stay so when glued at a non-digit. */
  lemma ShortConcat(a: seq<char>, b: seq<char>)
    requires ShortDigitRuns(a) && ShortDigitRuns(b)
    requires |a| == 0 || |b| == 0 || !IsDigit(a[|a| - 1]) || !IsDigit(b[0])
    ensures ShortDigitRuns(a + b)
  {
    var t := a + b;
    forall k, m | 0 <= k <= m <= |t| && All(t, k, m, Digit) ensures m - k <= 4 {
      if |a| > 0 && |b| > 0 {
        assert t[|a| - 1] == a[|a| - 1] && t[|a|] == b[0];
      }
      assert m <= |a| || k >= |a|;
      if m <= |a| {
        assert All(a, k, m, Digit) by {
          forall i | k <= i < m ensures In(Digit, a[i]) { assert t[i] == a[i]; }
        }
      } else {
        assert All(b, k - |a|, m - |a|, Digit) by {
          forall i | k - |a| <= i < m - |a| ensures In(Digit, b[i]) { assert t[i + |a|] == b[i]; }
        }
      }
    }
  }

  lemma ShortNoDigits(t: seq<char>)
    requires forall i :: 0 <= i < |t| ==> !IsDigit(t[i])
    ensures ShortDigitRuns(t)
  {
    forall k, m | 0 <= k <= m <= |t| && All(t, k, m, Digit) ensures m - k <= 4 {
      assert k < m ==> In(Digit, t[k]);
    }
  }

  lemma ShortBrief(t: seq<char>)
    requires |t| <= 4
    ensures ShortDigitRuns(t)
  {
  }

  /** Scanning from a non-digit (or the end) yields the empty text or a non-digit first. */
  lemma StartsWithNonDigit(s: seq<char>, p: nat)
    requires p <= |s| && (p == |s| || !IsDigit(s[p]))
    ensures SubFrom(LongNumber, s, p) == [] || !IsDigit(SubFrom(LongNumber, s, p)[0])
  {
    if p < |s| { LongNumberAt(s, p); }
  }

  /** After the `\d{5,}` rule no run of five or more digits is left. */
  lemma {:induction false} LongNumbersGone(s: seq<char>, p: nat)
    requires p <= |s|
    ensures ShortDigitRuns(SubFrom(LongNumber, s, p))
    decreases |s| - p
  {
    if p < |s| {
      var e := Span(s, p, Digit);
      if e == p {
        LongNumbersGone(s, p + 1);
        GoneAtNonDigit(s, p);
      } else {
        LongNumbersGone(s, e);
        GoneAtRun(s, p);
      }
    }
  }

  /** A non-digit is copied in front of a clean rest. */
  lemma GoneAtNonDigit(s: seq<char>, p: nat)
    requires p < |s| && Span(s, p, Digit) == p
    requires ShortDigitRuns(SubFrom(LongNumber, s, p + 1))
    ensures ShortDigitRuns(SubFrom(LongNumber, s, p))
  {
    LongNumberAt(s, p);
    SubFromCopy(LongNumber, s, p);
    ShortNoDigits([s[p]]);
    ShortConcat([s[p]], SubFrom(LongNumber, s, p + 1));
  }

  /** A digit run, copied or replaced, is followed by a rest that starts with a non-digit. */
  lemma GoneAtRun(s: seq<char>, p: nat)
    requires p < |s| && Span(s, p, Digit) > p
    requires ShortDigitRuns(SubFrom(LongNumber, s, Span(s, p, Digit)))
    ensures ShortDigitRuns(SubFrom(LongNumber, s, p))
  {
    var e := Span(s, p, Digit);
    DigitRun(s, p);
    StartsWithNonDigit(s, e);
    var rest := SubFrom(LongNumber, s, e);
    if e - p >= 5 {
      GluedAfter(SubFrom(LongNumber, s, p), "NUM", rest);
    } else {
      GluedAfter(SubFrom(LongNumber, s, p), s[p..e], rest);
    }
  }

  /** A piece of at most four characters, or `NUM`, before a clean rest that does
      not start with a digit. */
  lemma GluedAfter(x: seq<char>, a: seq<char>, rest: seq<char>)
    requires x == a + rest && (|a| <= 4 || a == "NUM") && ShortDigitRuns(rest)
    requires rest == [] || !IsDigit(rest[0])
    ensures ShortDigitRuns(x)
  {
    if a == "NUM" { ShortNoDigits("NUM"); } else { ShortBrief(a); }
    ShortConcat(a, rest);
  }

  /** A text with no long digit run is left alone by the `\d{5,}` rule, so the rule
      is idempotent. */
  lemma ShortUntouched(t: seq<char>)
    requires ShortDigitRuns(t)
    ensures Sub(LongNumber, t) == t
  {
    forall q | 0 <= q < |t| ensures MatchAt(LongNumber, t, q).None? {
      LongNumberAt(t, q);
    }
  }

  lemma LongNumberIdempotent(s: seq<char>)
    ensures Sub(LongNumber, Sub(LongNumber, s)) == Sub(LongNumber, s)
  {
    LongNumbersGone(s, 0);
    ShortUntouched(Sub(LongNumber, s));
  }

  lemma RemoveNumbersIdempotentOnDigits(s: seq<char>)
    ensures Sub(LongNumber, RemoveNumbers(s)) == RemoveNumbers(s)
  {
    ShortUntouched(RemoveNumbers(s));
  }
}
