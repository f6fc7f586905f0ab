/** Linear regular expressions and how Python's backtracking matcher runs them.

    Most patterns of the normaliser are a fixed sequence of literals, single
    character classes and greedy runs, possibly with optional groups or
    alternations. Spelled out, an optional group or an alternation becomes an
    ordered list of linear alternatives, tried in the order the backtracking
    matcher explores them.

    `Rel` is the textbook meaning of a linear pattern: some split of the text
    fits the steps, with every run of any admissible length. `Possessive` is the
    scanner: every run takes as much as it can and never gives any back. The
    theorem `PossessiveLongest` shows that when each run is followed by something
    it cannot swallow (`Safe`), the scanner finds a match whenever one exists,
    and finds the longest one, which is the match a greedy backtracking matcher
    reports for such a pattern. */
module Pattern {
  import opened Chars

  datatype Step =
    | Lit(text: seq<char>, ci: bool)   // a literal; case-insensitive when ci
    | One(cls: Class)                  // exactly one character of the class
    | Run(cls: Class, min: nat)        // at least min characters of the class, greedy

  /** The literal `w` occurs at `p`. */
  predicate LitAt(s: seq<char>, p: int, w: seq<char>, ci: bool) {
    0 <= p && p + |w| <= |s|
    && forall k :: 0 <= k < |w| ==> (if ci then EqCI(s[p + k], w[k]) else s[p + k] == w[k])
  }

  /** `s[p..j]` is a match of the linear pattern, with any admissible run lengths. */
  ghost predicate Rel(steps: seq<Step>, s: seq<char>, p: nat, j: nat)
    decreases |steps|
  {
    p <= |s| &&
    if |steps| == 0 then j == p
    else match steps[0]
      case Lit(w, ci) => LitAt(s, p, w, ci) && Rel(steps[1..], s, p + |w|, j)
      case One(cls) => p < |s| && In(cls, s[p]) && Rel(steps[1..], s, p + 1, j)
      case Run(cls, m) => exists e: nat :: p + m <= e && All(s, p, e, cls) && Rel(steps[1..], s, e, j)
  }

  /** The scanner: each run is maximal. Returns the end of the match. */
  function Possessive(steps: seq<Step>, s: seq<char>, p: nat): (r: Option<nat>)
    requires p <= |s|
    ensures r.Some? ==> p <= r.value <= |s|
    ensures r.Some? ==> Rel(steps, s, p, r.value)
    decreases |steps|
  {
    if |steps| == 0 then Some(p)
    else match steps[0]
      case Lit(w, ci) => if LitAt(s, p, w, ci) then Possessive(steps[1..], s, p + |w|) else None
      case One(cls) => if p < |s| && In(cls, s[p]) then Possessive(steps[1..], s, p + 1) else None
      case Run(cls, m) =>
        var e := Span(s, p, cls);
        if e - p >= m then Possessive(steps[1..], s, e) else None
  }

  /** A step that cannot match the empty text. */
  predicate Consuming(st: Step) {
    match st
    case Lit(w, _) => |w| > 0
    case One(_) => true
    case Run(_, m) => m >= 1
  }

  /** `c` can be the first character a consuming step matches. */
  predicate Starts(st: Step, c: char)
    requires Consuming(st)
  {
    match st
    case Lit(w, ci) => if ci then EqCI(c, w[0]) else c == w[0]
    case One(cls) => In(cls, c)
    case Run(cls, _) => In(cls, c)
  }

  /** Class pairs with no character in common (the ones the patterns need). */
  predicate DisjointPair(a: Class, b: Class) {
    match (a, b)
    case (CyrAnyCase, SpaceOrDash) => true
    case (CyrAnyCase, Space) => true
    case (CyrLower, Space) => true
    case (Word, Space) => true
    case (DigitOrSpace, CommaOrDot) => true
    case (Space, Digit) => true
    case _ => false
  }

  predicate Disjoint(a: Class, b: Class) {
    DisjointPair(a, b) || DisjointPair(b, a)
  }

  lemma DisjointSound(a: Class, b: Class, c: char)
    requires Disjoint(a, b) && In(a, c)
    ensures !In(b, c)
  {
  }

  /** A run of `cls` stops before the step `next` can start. */
  ghost predicate Stops(cls: Class, next: Step) {
    Consuming(next) && forall c :: Starts(next, c) ==> !In(cls, c)
  }

  /** Every run is followed by nothing (end of pattern) or by a step it cannot
      swallow, so the backtracking matcher never shortens a run. */
  ghost predicate Safe(steps: seq<Step>)
    decreases |steps|
  {
    |steps| <= 1 || ((steps[0].Run? ==> Stops(steps[0].cls, steps[1])) && Safe(steps[1..]))
  }

  /** A computable check that implies `Stops`. */
  predicate StopsCheck(cls: Class, next: Step) {
    Consuming(next) &&
    match next
    case Lit(w, ci) => !In(cls, w[0]) && (ci ==> !In(cls, Fold(w[0])) && !In(cls, Unfold(w[0])))
    case One(c2) => Disjoint(c2, cls)
    case Run(c2, _) => Disjoint(c2, cls)
  }

  predicate SafeCheck(steps: seq<Step>) {
    forall i :: 0 <= i && i + 1 < |steps| ==> steps[i].Run? ==> StopsCheck(steps[i].cls, steps[i + 1])
  }

  lemma StopsCheckSound(cls: Class, next: Step)
    requires StopsCheck(cls, next)
    ensures Stops(cls, next)
  {
    forall c | Starts(next, c) ensures !In(cls, c) {
      match next
      case Lit(w, ci) =>
        if ci { EqCIForms(c, w[0]); }
      case One(c2) => DisjointSound(c2, cls, c);
      case Run(c2, _) => DisjointSound(c2, cls, c);
    }
  }

  lemma {:induction false} SafeCheckSound(steps: seq<Step>)
    requires SafeCheck(steps)
    ensures Safe(steps)
    decreases |steps|
  {
    if |steps| > 1 {
      if steps[0].Run? { StopsCheckSound(steps[0].cls, steps[1]); }
      forall i | 0 <= i && i + 1 < |steps[1..]| && steps[1..][i].Run?
        ensures StopsCheck(steps[1..][i].cls, steps[1..][i + 1])
      {
        assert steps[1..][i] == steps[i + 1] && steps[1..][i + 1] == steps[i + 2];
      }
      SafeCheckSound(steps[1..]);
    }
  }

  /** A match of a pattern whose first step is consuming begins with a character
      that step accepts. */
  lemma RelStarts(steps: seq<Step>, s: seq<char>, p: nat, j: nat)
    requires |steps| > 0 && Consuming(steps[0]) && Rel(steps, s, p, j)
    ensures p < |s| && Starts(steps[0], s[p])
  {
    match steps[0]
    case Lit(w, ci) => assert LitAt(s, p, w, ci);
    case One(cls) =>
    case Run(cls, m) =>
      var e: nat :| p + m <= e && All(s, p, e, cls) && Rel(steps[1..], s, e, j);
  }

  /** On a safe pattern the scanner misses no match and returns the longest. */
  lemma {:induction false} PossessiveLongest(steps: seq<Step>, s: seq<char>, p: nat, j: nat)
    requires Safe(steps) && Rel(steps, s, p, j)
    ensures Possessive(steps, s, p).Some? && j <= Possessive(steps, s, p).value
    decreases |steps|
  {
    if |steps| > 0 {
      match steps[0]
      case Lit(w, ci) => PossessiveLongest(steps[1..], s, p + |w|, j);
      case One(cls) => PossessiveLongest(steps[1..], s, p + 1, j);
      case Run(cls, m) =>
        var e: nat :| p + m <= e && All(s, p, e, cls) && Rel(steps[1..], s, e, j);
        SpanBounds(s, p, e, cls);
        if |steps| == 1 {
          assert Possessive(steps[1..], s, Span(s, p, cls)) == Some(Span(s, p, cls));
        } else {
          RelStarts(steps[1..], s, e, j);
          assert !In(cls, s[e]);
          PossessiveLongest(steps[1..], s, e, j);
        }
    }
  }

  /** Ordered alternatives: the first whose scan succeeds wins, as a
      backtracking matcher tries the branches of an optional group or an
      alternation in order. */
  function FirstMatch(alts: seq<seq<Step>>, s: seq<char>, p: nat): (r: Option<nat>)
    requires p <= |s|
    ensures r.Some? ==> p <= r.value <= |s|
    ensures r.Some? ==> exists k :: 0 <= k < |alts| && Rel(alts[k], s, p, r.value)
    decreases |alts|
  {
    if |alts| == 0 then None
    else match Possessive(alts[0], s, p)
      case Some(j) => Some(j)
      case None =>
        var r := FirstMatch(alts[1..], s, p);
        assert r.Some? ==> exists k :: 1 <= k < |alts| && Rel(alts[k], s, p, r.value) by {
          if r.Some? {
            var k :| 0 <= k < |alts[1..]| && Rel(alts[1..][k], s, p, r.value);
            assert alts[1..][k] == alts[k + 1];
          }
        }
        r
  }

  ghost predicate AllSafe(alts: seq<seq<Step>>) {
    forall k :: 0 <= k < |alts| ==> Safe(alts[k])
  }

  predicate AllSafeCheck(alts: seq<seq<Step>>) {
    forall k :: 0 <= k < |alts| ==> SafeCheck(alts[k])
  }

  lemma AllSafeCheckSound(alts: seq<seq<Step>>)
    requires AllSafeCheck(alts)
    ensures AllSafe(alts)
  {
    forall k | 0 <= k < |alts| ensures Safe(alts[k]) { SafeCheckSound(alts[k]); }
  }

  /** A pattern alternative as the normaliser's regexes spell them: it cannot
      match the empty text and each run stops before the step after it. */
  type Alt = a: seq<Step> | |a| > 0 && Consuming(a[0]) && SafeCheck(a) witness [One(Digit)]

  /** Two pattern pieces one after the other; the joint is safe when the first
      piece's last run stops before the second piece begins. */
  function Then(a: Alt, b: Alt): (r: Alt)
    requires a[|a| - 1].Run? ==> StopsCheck(a[|a| - 1].cls, b[0])
    ensures r == a + b
  {
    var r := a + b;
    assert forall i :: 0 <= i < |a| ==> r[i] == a[i];
    assert forall i :: |a| <= i < |r| ==> r[i] == b[i - |a|];
    r
  }

  lemma AltsWellFormed(alts: seq<Alt>)
    ensures NonEmpty(alts) && AllSafe(alts)
  {
    AllSafeCheckSound(alts);
  }

  /** What the matcher reports: the first alternative that matches at all, and
      within it the longest match; no earlier alternative matches. */
  lemma {:induction false} FirstMatchIsFirstLongest(alts: seq<seq<Step>>, s: seq<char>, p: nat, k: nat, j: nat)
    requires p <= |s| && AllSafe(alts) && k < |alts| && Rel(alts[k], s, p, j)
    ensures FirstMatch(alts, s, p).Some?
    ensures exists k' :: 0 <= k' <= k && FirstMatch(alts, s, p) == Possessive(alts[k'], s, p)
                         && forall k'' :: 0 <= k'' < k' ==> Possessive(alts[k''], s, p).None?
    decreases |alts|
  {
    if Possessive(alts[0], s, p).None? {
      if k == 0 {
        PossessiveLongest(alts[0], s, p, j);
      }
      assert alts[1..][k - 1] == alts[k];
      FirstMatchIsFirstLongest(alts[1..], s, p, k - 1, j);
      var k' :| 0 <= k' <= k - 1 && FirstMatch(alts[1..], s, p) == Possessive(alts[1..][k'], s, p)
                && forall k'' :: 0 <= k'' < k' ==> Possessive(alts[1..][k''], s, p).None?;
      assert alts[1..][k'] == alts[k' + 1];
      forall k'' | 0 <= k'' < k' + 1 ensures Possessive(alts[k''], s, p).None? {
        if k'' > 0 { assert alts[1..][k'' - 1] == alts[k'']; }
      }
    }
  }

  /** Every alternative starts with a consuming step, so no match is empty. */
  predicate NonEmpty(alts: seq<seq<Step>>) {
    forall k :: 0 <= k < |alts| ==> |alts[k]| > 0 && Consuming(alts[k][0])
  }

  lemma NonEmptyAdvances(alts: seq<seq<Step>>, s: seq<char>, p: nat)
    requires p <= |s| && NonEmpty(alts) && FirstMatch(alts, s, p).Some?
    ensures FirstMatch(alts, s, p).value > p
  {
    var j := FirstMatch(alts, s, p).value;
    var k :| 0 <= k < |alts| && Rel(alts[k], s, p, j);
    match alts[k][0]
    case Lit(w, ci) => assert LitAt(s, p, w, ci);
    case One(_) =>
    case Run(cls, m) =>
  }

  /** A match never ends before it starts. */
  lemma {:induction false} RelOrdered(steps: seq<Step>, s: seq<char>, p: nat, j: nat)
    requires Rel(steps, s, p, j)
    ensures p <= j <= |s|
    decreases |steps|
  {
    if |steps| > 0 {
      match steps[0]
      case Lit(w, ci) => RelOrdered(steps[1..], s, p + |w|, j);
      case One(cls) => RelOrdered(steps[1..], s, p + 1, j);
      case Run(cls, m) =>
        var e: nat :| p + m <= e && All(s, p, e, cls) && Rel(steps[1..], s, e, j);
        RelOrdered(steps[1..], s, e, j);
    }
  }

  /** Every literal of a pattern occurs inside each of its matches. */
  lemma {:induction false} RelLitOccurs(steps: seq<Step>, s: seq<char>, p: nat, j: nat, i: nat)
    requires Rel(steps, s, p, j) && i < |steps| && steps[i].Lit?
    ensures exists q: nat :: p <= q && q + |steps[i].text| <= j && LitAt(s, q, steps[i].text, steps[i].ci)
    decreases |steps|
  {
    match steps[0]
    case Lit(w, ci) =>
      RelOrdered(steps[1..], s, p + |w|, j);
      if i > 0 {
        assert steps[1..][i - 1] == steps[i];
        RelLitOccurs(steps[1..], s, p + |w|, j, i - 1);
      }
    case One(cls) =>
      assert steps[1..][i - 1] == steps[i];
      RelLitOccurs(steps[1..], s, p + 1, j, i - 1);
    case Run(cls, m) =>
      var e: nat :| p + m <= e && All(s, p, e, cls) && Rel(steps[1..], s, e, j);
      assert steps[1..][i - 1] == steps[i];
      RelLitOccurs(steps[1..], s, e, j, i - 1);
  }

  /** Every alternative contains the literal `w`: no match without an occurrence of `w`. */
  predicate Anchored(alts: seq<seq<Step>>, w: seq<char>, ci: bool) {
    forall k :: 0 <= k < |alts| ==> Lit(w, ci) in alts[k]
  }

  lemma AnchoredMatch(alts: seq<seq<Step>>, w: seq<char>, ci: bool, s: seq<char>, p: nat)
    requires p <= |s| && Anchored(alts, w, ci)
    ensures FirstMatch(alts, s, p).Some? ==>
              exists q: nat :: p <= q && q + |w| <= FirstMatch(alts, s, p).value && LitAt(s, q, w, ci)
  {
    if FirstMatch(alts, s, p).None? { return; }
    var j := FirstMatch(alts, s, p).value;
    var k :| 0 <= k < |alts| && Rel(alts[k], s, p, j);
    assert Lit(w, ci) in alts[k];
    var i :| 0 <= i < |alts[k]| && alts[k][i] == Lit(w, ci);
    RelLitOccurs(alts[k], s, p, j, i);
  }

  /** A character matches a pattern letter, ignoring case when `ci`. */
  predicate Same(c: char, letter: char, ci: bool) {
    if ci then EqCI(c, letter) else c == letter
  }

  /** A literal cannot occur where two of its consecutive letters never occur. */
  lemma PairAbsent(s: seq<char>, w: seq<char>, ci: bool, i: nat)
    requires i + 1 < |w|
    requires forall k :: 0 <= k && k + 1 < |s| ==> !(Same(s[k], w[i], ci) && Same(s[k + 1], w[i + 1], ci))
    ensures forall q :: !LitAt(s, q, w, ci)
  {
    forall q | LitAt(s, q, w, ci) ensures false {
      assert Same(s[q + i], w[i], ci) && Same(s[q + (i + 1)], w[i + 1], ci);
    }
  }

  /** A literal cannot occur where one of its letters never occurs. */
  lemma LetterAbsent(s: seq<char>, w: seq<char>, ci: bool, i: nat)
    requires i < |w|
    requires forall k :: 0 <= k < |s| ==> !Same(s[k], w[i], ci)
    ensures forall q :: !LitAt(s, q, w, ci)
  {
    forall q ensures !LitAt(s, q, w, ci) {
      LitLetter(s, q, w, ci, i);
    }
  }

  lemma LitLetter(s: seq<char>, q: int, w: seq<char>, ci: bool, i: nat)
    requires i < |w|
    ensures LitAt(s, q, w, ci) ==> Same(s[q + i], w[i], ci)
  {
  }

  /** One literal step of the scanner. */
  lemma PossessiveLit(steps: seq<Step>, s: seq<char>, p: nat, j: nat)
    requires |steps| > 0 && steps[0].Lit? && LitAt(s, p, steps[0].text, steps[0].ci)
    requires Possessive(steps[1..], s, p + |steps[0].text|) == Some(j)
    ensures Possessive(steps, s, p) == Some(j)
  {
  }

  /** One run step of the scanner. */
  lemma PossessiveRun(steps: seq<Step>, s: seq<char>, p: nat, e: nat, j: nat)
    requires p <= |s| && |steps| > 0 && steps[0].Run? && Span(s, p, steps[0].cls) == e && e - p >= steps[0].min
    requires Possessive(steps[1..], s, e) == Some(j)
    ensures Possessive(steps, s, p) == Some(j)
  {
  }
}
