/** The normaliser's layout regexes, whose matches Python finds by backtracking
    into a greedy part, so no linear spelling captures them:

    - the spaced-capitals collapse of `text_processing/base.py`
      (`\s((?:[А-Я]\s+){2,}[А-Я][^\w])` under `re.IGNORECASE`) and of
      `text_processing/tika_parsing.py` (`(([А-Я] ){2,}[А-Я])`);
    - the line joiner `([а-яА-Я,"«»()0-9])\s*\n+` of both files;
    - the two markers `cut_parts` cuts at.

    Each has a scanner and a relational predicate saying which texts match, and a
    lemma that the scanner reports exactly the match the backtracking matcher
    settles on. */
module Layout {
  import opened Chars
  import opened Pattern

  // ---------------------------------------------------------------------------
  // Newlines inside a whitespace run

  /** Position of the last newline in `s[a..b]`. */
  function LastNewline(s: seq<char>, a: nat, b: nat): (r: Option<nat>)
    requires a <= b <= |s|
    ensures r.Some? ==> a <= r.value < b && s[r.value] == '\n'
    ensures r.Some? ==> forall k :: r.value < k < b ==> s[k] != '\n'
    ensures r.None? ==> forall k :: a <= k < b ==> s[k] != '\n'
    decreases b - a
  {
    if a == b then None
    else if s[b - 1] == '\n' then Some(b - 1)
    else LastNewline(s, a, b - 1)
  }

  /** End of the greedy `\s*\n` (also `\s*\n+`) starting at `a`: just after the
      last newline of the whitespace run at `a`. */
  function ThroughLastNewline(s: seq<char>, a: nat): (r: Option<nat>)
    requires a <= |s|
    ensures r.Some? ==> a < r.value <= |s|
  {
    match LastNewline(s, a, Span(s, a, Space))
    case Some(n) => Some(n + 1)
    case None => None
  }

  /** `s[a..j]` is whitespace ending in a newline: what `\s*\n` and `\s*\n+` match. */
  ghost predicate SpaceToNewline(s: seq<char>, a: nat, j: nat) {
    a < j <= |s| && All(s, a, j, Space) && s[j - 1] == '\n'
  }

  lemma ThroughLastNewlineIsLongest(s: seq<char>, a: nat)
    requires a <= |s|
    ensures ThroughLastNewline(s, a).Some? ==> SpaceToNewline(s, a, ThroughLastNewline(s, a).value)
    ensures forall j: nat :: SpaceToNewline(s, a, j) ==> ThroughLastNewline(s, a).Some? && j <= ThroughLastNewline(s, a).value
  {
    var e := Span(s, a, Space);
    forall j: nat | SpaceToNewline(s, a, j)
      ensures ThroughLastNewline(s, a).Some? && j <= ThroughLastNewline(s, a).value
    {
      SpanBounds(s, a, j, Space);
      assert a <= j - 1 < e;
    }
  }

  // ---------------------------------------------------------------------------
  // The line joiner `([а-яА-Я,"«»()0-9])\s*\n+`

  function JoinMatchAt(s: seq<char>, i: nat): (r: Option<nat>)
    requires i < |s|
    ensures r.Some? ==> i + 1 < r.value <= |s|
  {
    if In(LineJoinLead, s[i]) then ThroughLastNewline(s, i + 1) else None
  }

  ghost predicate JoinRel(s: seq<char>, i: nat, j: nat) {
    i < |s| && In(LineJoinLead, s[i]) && SpaceToNewline(s, i + 1, j)
  }

  /** The joiner matches from a letter, digit, comma, quote or bracket through the
      last newline of the whitespace that follows it, and nowhere else. */
  lemma JoinMatchIsLongest(s: seq<char>, i: nat)
    requires i < |s|
    ensures JoinMatchAt(s, i).Some? ==> JoinRel(s, i, JoinMatchAt(s, i).value)
    ensures forall j: nat :: JoinRel(s, i, j) ==> JoinMatchAt(s, i).Some? && j <= JoinMatchAt(s, i).value
  {
    ThroughLastNewlineIsLongest(s, i + 1);
  }

  // ---------------------------------------------------------------------------
  // Spaced capitals, base.py: \s((?:[А-Я]\s+){2,}[А-Я][^\w]) with re.IGNORECASE

  predicate Letter(c: char) { In(CyrAnyCase, c) }

  lemma LetterNotSpace(c: char)
    requires Letter(c)
    ensures !IsSpace(c) && IsWord(c)
  {
  }

  /** How many "letter, whitespace run" pairs follow one another from `p`. */
  function Pairs(s: seq<char>, p: nat): nat
    requires p <= |s|
    decreases |s| - p
  {
    if p + 1 < |s| && Letter(s[p]) && IsSpace(s[p + 1]) then 1 + Pairs(s, Span(s, p + 1, Space)) else 0
  }

  /** Where the `k`-th pair from `p` ends. */
  function After(s: seq<char>, p: nat, k: nat): (q: nat)
    requires p <= |s| && k <= Pairs(s, p)
    ensures p <= q <= |s|
    decreases k
  {
    if k == 0 then p else After(s, Span(s, p + 1, Space), k - 1)
  }

  /** One pair off the front: a letter, a whitespace run, and the pairs after it. */
  lemma PairStep(s: seq<char>, p: nat) returns (c: nat)
    requires p <= |s| && Pairs(s, p) > 0
    ensures c == Span(s, p + 1, Space) && p + 2 <= c <= |s| && Gap(s, p, c)
    ensures Letter(s[p]) && Pairs(s, p) == 1 + Pairs(s, c)
  {
    c := Span(s, p + 1, Space);
    SpanBounds(s, p + 1, p + 2, Space);
  }

  /** Every pair but the last one counted starts with a letter and a blank. */
  lemma {:induction false} AfterPair(s: seq<char>, p: nat, n: nat)
    requires p <= |s| && n < Pairs(s, p)
    ensures After(s, p, n) + 1 < |s| && Letter(s[After(s, p, n)]) && IsSpace(s[After(s, p, n) + 1])
    decreases n
  {
    if n > 0 { AfterPair(s, Span(s, p + 1, Space), n - 1); }
  }

  lemma {:induction false} AfterMonotone(s: seq<char>, p: nat, n: nat, m: nat)
    requires p <= |s| && n <= m <= Pairs(s, p)
    ensures After(s, p, n) <= After(s, p, m)
    ensures n < m ==> After(s, p, n) < After(s, p, m)
    decreases m
  {
    if n > 0 {
      AfterMonotone(s, Span(s, p + 1, Space), n - 1, m - 1);
    } else if m > 0 {
      AfterMonotone(s, Span(s, p + 1, Space), 0, m - 1);
    }
  }

  /** `s[a + 1..c]` is a non-empty whitespace run. */
  ghost predicate Gap(s: seq<char>, a: nat, c: nat) {
    a + 1 < c && All(s, a + 1, c, Space)
  }

  /** `s[a..b]` is `n + 1` letters separated by non-empty whitespace runs. */
  ghost predicate Spaced(s: seq<char>, a: nat, b: nat, n: nat)
    decreases n
  {
    a < b <= |s| && Letter(s[a]) &&
    if n == 0 then b == a + 1
    else exists c: nat :: Gap(s, a, c) && c < b && Spaced(s, c, b, n - 1)
  }

  /** The pairs of a spaced run are the maximal ones `Pairs` counts. */
  lemma {:induction false} SpacedPairs(s: seq<char>, a: nat, b: nat, n: nat)
    requires a <= |s| && Spaced(s, a, b, n)
    ensures n <= Pairs(s, a) && After(s, a, n) < |s| && Letter(s[After(s, a, n)]) && b == After(s, a, n) + 1
    decreases n
  {
    if n > 0 {
      var c: nat :| Gap(s, a, c) && c < b && Spaced(s, c, b, n - 1);
      LetterNotSpace(s[c]);
      SpanBounds(s, a + 1, c, Space);
      assert c == Span(s, a + 1, Space);
      SpacedPairs(s, c, b, n - 1);
    }
  }

  lemma {:induction false} PairsSpaced(s: seq<char>, a: nat, n: nat)
    requires a <= |s| && n <= Pairs(s, a) && After(s, a, n) < |s| && Letter(s[After(s, a, n)])
    ensures Spaced(s, a, After(s, a, n) + 1, n)
    decreases n
  {
    if n > 0 {
      var c := PairStep(s, a);
      PairsSpaced(s, c, n - 1);
      AfterMonotone(s, c, 0, n - 1);
      assert After(s, a, n) == After(s, c, n - 1);
    }
  }

  /** A spaced-capitals match at `i`: a whitespace character, three or more
      letters separated by whitespace runs, and one non-word character. */
  ghost predicate CapRel(s: seq<char>, i: nat, j: nat) {
    i + 1 < j <= |s| && IsSpace(s[i]) && !IsWord(s[j - 1])
    && exists n: nat :: CapLetters(s, i, j, n)
  }

  ghost predicate CapLetters(s: seq<char>, i: nat, j: nat, n: nat) {
    n >= 2 && i + 1 < j && Spaced(s, i + 1, j - 1, n)
  }

  /** Where a spaced-capitals run closes: a last letter, then a non-word character. */
  predicate Closes(s: seq<char>, q: nat) {
    q + 1 < |s| && Letter(s[q]) && !IsWord(s[q + 1])
  }

  /** The scanner: count the pairs after the whitespace character; close on the
      last letter if a non-word character follows it, otherwise give the last
      pair back and close on its letter, whose blank is non-word. */
  function CapMatchAt(s: seq<char>, i: nat): (r: Option<nat>)
    requires i < |s|
    ensures r.Some? ==> i + 5 < r.value <= |s|
  {
    if !IsSpace(s[i]) then None
    else
      var k := Pairs(s, i + 1);
      if k >= 2 && Closes(s, After(s, i + 1, k)) then
        AfterGrows(s, i + 1, 0, k);
        Some(After(s, i + 1, k) + 2)
      else if k >= 3 then
        AfterGrows(s, i + 1, 0, k - 1);
        AfterGrows(s, i + 1, k - 1, k);
        Some(After(s, i + 1, k - 1) + 2)
      else None
  }

  /** Each pair takes at least a letter and one whitespace character. */
  lemma {:induction false} AfterGrows(s: seq<char>, p: nat, n: nat, m: nat)
    requires p <= |s| && n <= m <= Pairs(s, p)
    ensures After(s, p, n) + 2 * (m - n) <= After(s, p, m)
    decreases m
  {
    if m > 0 {
      var c := PairStep(s, p);
      AfterGrows(s, c, if n > 0 then n - 1 else 0, m - 1);
      assert After(s, p, m) == After(s, c, m - 1);
    }
  }

  /** The scanner's outcomes after a whitespace character, in terms of the pair
      count `k`, where the last pair and the one before it end, and whether the
      last letter closes. */
  lemma CapScan(s: seq<char>, i: nat) returns (k: nat, last: nat, butLast: nat, closes: bool)
    requires i < |s| && IsSpace(s[i])
    ensures k == Pairs(s, i + 1) && last == After(s, i + 1, k) && closes == Closes(s, last)
    ensures k >= 1 ==> butLast == After(s, i + 1, k - 1)
    ensures CapMatchAt(s, i) == if k >= 2 && closes then Some(last + 2) else if k >= 3 then Some(butLast + 2) else None
  {
    k := Pairs(s, i + 1);
    last := After(s, i + 1, k);
    butLast := if k >= 1 then After(s, i + 1, k - 1) else 0;
    closes := Closes(s, last);
  }

  lemma CapSoundAll(s: seq<char>, i: nat, k: nat, j: nat)
    requires i < |s| && IsSpace(s[i]) && k == Pairs(s, i + 1) && k >= 2 && Closes(s, After(s, i + 1, k))
    requires j == After(s, i + 1, k) + 2
    ensures CapRel(s, i, j)
  {
    PairsSpaced(s, i + 1, k);
    assert CapLetters(s, i, j, k);
  }

  lemma CapSoundButLast(s: seq<char>, i: nat, k: nat, j: nat)
    requires i < |s| && IsSpace(s[i]) && k == Pairs(s, i + 1) && k >= 3
    requires j == After(s, i + 1, k - 1) + 2
    ensures CapRel(s, i, j)
  {
    var a := After(s, i + 1, k - 1);
    AfterPair(s, i + 1, k - 1);
    PairsSpaced(s, i + 1, k - 1);
    AfterMonotone(s, i + 1, 0, k - 1);
    CapFromLetters(s, i, a, k - 1);
  }

  /** Closing on a letter followed by whitespace gives a match. */
  lemma CapFromLetters(s: seq<char>, i: nat, a: nat, n: nat)
    requires i < a && a + 1 < |s| && IsSpace(s[i]) && IsSpace(s[a + 1])
    requires n >= 2 && Spaced(s, i + 1, a + 1, n)
    ensures CapRel(s, i, a + 2)
  {
    assert !IsWord(s[a + 1]);
    assert CapLetters(s, i, a + 2, n);
  }

  lemma CapMatchSound(s: seq<char>, i: nat)
    requires i < |s| && CapMatchAt(s, i).Some?
    ensures CapRel(s, i, CapMatchAt(s, i).value)
  {
    assert IsSpace(s[i]);
    var k, last, butLast, closes := CapScan(s, i);
    if k >= 2 && closes {
      CapSoundAll(s, i, k, last + 2);
    } else {
      CapSoundButLast(s, i, k, butLast + 2);
    }
  }

  /** A spaced-capitals match, in the scanner's terms: `n >= 2` counted pairs, then
      a closing letter. */
  lemma CapRelShape(s: seq<char>, i: nat, j: nat) returns (n: nat)
    requires i < |s| && CapRel(s, i, j)
    ensures IsSpace(s[i])
    ensures 2 <= n <= Pairs(s, i + 1) && j == After(s, i + 1, n) + 2 && Closes(s, After(s, i + 1, n))
  {
    n :| CapLetters(s, i, j, n);
    SpacedPairs(s, i + 1, j - 1, n);
    var a := After(s, i + 1, n);
    assert a + 1 == j - 1;
    assert Closes(s, a);
  }

  lemma CapMatchComplete(s: seq<char>, i: nat, j: nat)
    requires i < |s| && CapRel(s, i, j)
    ensures CapMatchAt(s, i).Some? && j <= CapMatchAt(s, i).value
  {
    var n := CapRelShape(s, i, j);
    CapCompleteFrom(s, i, j, n);
  }

  /** Completeness once the match is in the scanner's terms. */
  lemma CapCompleteFrom(s: seq<char>, i: nat, j: nat, n: nat)
    requires i < |s| && IsSpace(s[i])
    requires 2 <= n <= Pairs(s, i + 1) && j == After(s, i + 1, n) + 2 && Closes(s, After(s, i + 1, n))
    ensures CapMatchAt(s, i).Some? && j <= CapMatchAt(s, i).value
  {
    var k, last, butLast, closes := CapScan(s, i);
    AfterMonotone(s, i + 1, n, k);
    if n < k { AfterMonotone(s, i + 1, n, k - 1); }
    CapClosesAt(n, k, After(s, i + 1, n), last, if n < k then butLast else 0, closes);
  }

  /** The scanner stops at the last closing letter, or one pair short of the end:
      either way no earlier than a spaced run of `n >= 2` pairs that closes. */
  lemma CapClosesAt(n: nat, k: nat, end: nat, last: nat, butLast: nat, closesLast: bool)
    requires 2 <= n <= k && end <= last
    requires n == k ==> closesLast
    requires n < k ==> end <= butLast
    ensures if closesLast then end <= last else k >= 3 && end <= butLast
  {
  }

  /** The scanner finds the spaced-capitals match with the most letters, which is
      where the greedy `{2,}` repetition settles, and misses none. */
  lemma CapMatchIsLongest(s: seq<char>, i: nat)
    requires i < |s|
    ensures CapMatchAt(s, i).Some? ==> CapRel(s, i, CapMatchAt(s, i).value)
    ensures forall j: nat :: CapRel(s, i, j) ==> CapMatchAt(s, i).Some? && j <= CapMatchAt(s, i).value
  {
    if CapMatchAt(s, i).Some? { CapMatchSound(s, i); }
    forall j: nat | CapRel(s, i, j)
      ensures CapMatchAt(s, i).Some? && j <= CapMatchAt(s, i).value
    {
      CapMatchComplete(s, i, j);
    }
  }

  // ---------------------------------------------------------------------------
  // Spaced capitals, tika_parsing.py: (([А-Я] ){2,}[А-Я]), case-sensitive

  /** `n` pairs "capital, blank" follow one another from `p`. */
  ghost predicate BlankPairs(s: seq<char>, p: nat, n: nat)
    decreases n
  {
    n == 0 || (p + 1 < |s| && IsUpperCyr(s[p]) && s[p + 1] == ' ' && BlankPairs(s, p + 2, n - 1))
  }

  /** How many "capital, blank" pairs follow one another from `p`. */
  function BlankPairCount(s: seq<char>, p: nat): (k: nat)
    requires p <= |s|
    ensures p + 2 * k <= |s|
    decreases |s| - p
  {
    if p + 1 < |s| && IsUpperCyr(s[p]) && s[p + 1] == ' ' then 1 + BlankPairCount(s, p + 2) else 0
  }

  lemma {:induction false} BlankPairsIff(s: seq<char>, p: nat, n: nat)
    requires p <= |s|
    ensures BlankPairs(s, p, n) <==> n <= BlankPairCount(s, p)
    decreases n
  {
    if n > 0 && p + 1 < |s| && IsUpperCyr(s[p]) && s[p + 1] == ' ' {
      BlankPairsIff(s, p + 2, n - 1);
    }
  }

  /** `s[i..j]` is three or more capitals separated by single blanks. */
  ghost predicate TikaCapRel(s: seq<char>, i: nat, j: nat) {
    exists n: nat :: n >= 2 && j == i + 2 * n + 1 && j <= |s| && BlankPairs(s, i, n) && IsUpperCyr(s[j - 1])
  }

  function TikaCapMatchAt(s: seq<char>, i: nat): (r: Option<nat>)
    requires i < |s|
    ensures r.Some? ==> i + 5 <= r.value <= |s|
  {
    var k := BlankPairCount(s, i);
    var q := i + 2 * k;
    if k >= 2 && q < |s| && IsUpperCyr(s[q]) then Some(q + 1)
    else if k >= 3 then Some(q - 1)
    else None
  }

  lemma {:induction false} BlankPairsLast(s: seq<char>, p: nat, n: nat)
    requires BlankPairs(s, p, n) && n > 0
    ensures p + 2 * n <= |s| && IsUpperCyr(s[p + 2 * n - 2])
    decreases n
  {
    if n > 1 { BlankPairsLast(s, p + 2, n - 1); }
  }

  /** The scanner finds the longest spaced-capitals run, as the greedy `{2,}`
      repetition does, and misses none. */
  lemma TikaCapMatchIsLongest(s: seq<char>, i: nat)
    requires i < |s|
    ensures TikaCapMatchAt(s, i).Some? ==> TikaCapRel(s, i, TikaCapMatchAt(s, i).value)
    ensures forall j: nat :: TikaCapRel(s, i, j) ==> TikaCapMatchAt(s, i).Some? && j <= TikaCapMatchAt(s, i).value
  {
    var k := BlankPairCount(s, i);
    BlankPairsIff(s, i, k);
    if TikaCapMatchAt(s, i).Some? && !(k >= 2 && i + 2 * k < |s| && IsUpperCyr(s[i + 2 * k])) {
      BlankPairsIff(s, i, k - 1);
      BlankPairsLast(s, i, k);
      assert BlankPairs(s, i, k - 1);
    }
    forall j: nat | TikaCapRel(s, i, j)
      ensures TikaCapMatchAt(s, i).Some? && j <= TikaCapMatchAt(s, i).value
    {
      var n: nat :| n >= 2 && j == i + 2 * n + 1 && j <= |s| && BlankPairs(s, i, n) && IsUpperCyr(s[j - 1]);
      BlankPairsIff(s, i, n);
    }
  }

  // ---------------------------------------------------------------------------
  // The start marker of cut_parts: ^.*установил\s*:\s*\n  (re.IGNORECASE | re.DOTALL)

  /** End of the greedy `установил\s*:\s*\n` at `p`. */
  function StartMarkerEnd(s: seq<char>, p: nat): (r: Option<nat>)
    requires p <= |s|
    ensures r.Some? ==> p < r.value <= |s|
  {
    if !LitAt(s, p, "установил", true) then None
    else
      var q := Span(s, p + 9, Space);
      if q < |s| && s[q] == ':' then ThroughLastNewline(s, q + 1) else None
  }

  ghost predicate StartMarkerRel(s: seq<char>, p: nat, j: nat) {
    LitAt(s, p, "установил", true)
    && exists q: nat :: p + 9 <= q < |s| && All(s, p + 9, q, Space) && s[q] == ':' && SpaceToNewline(s, q + 1, j)
  }

  lemma StartMarkerIsLongest(s: seq<char>, p: nat)
    requires p <= |s|
    ensures StartMarkerEnd(s, p).Some? ==> StartMarkerRel(s, p, StartMarkerEnd(s, p).value)
    ensures forall j: nat :: StartMarkerRel(s, p, j) ==> StartMarkerEnd(s, p).Some? && j <= StartMarkerEnd(s, p).value
  {
    if StartMarkerEnd(s, p).Some? {
      StartMarkerSound(s, p);
    }
    forall j: nat | StartMarkerRel(s, p, j)
      ensures StartMarkerEnd(s, p).Some? && j <= StartMarkerEnd(s, p).value
    {
      var q := StartMarkerColon(s, p, j);
      StartMarkerComplete(s, p, q, j);
    }
  }

  lemma StartMarkerSound(s: seq<char>, p: nat)
    requires p <= |s| && StartMarkerEnd(s, p).Some?
    ensures StartMarkerRel(s, p, StartMarkerEnd(s, p).value)
  {
    var q := Span(s, p + 9, Space);
    ThroughLastNewlineIsLongest(s, q + 1);
  }

  /** The colon of a start-marker match is the first non-blank after the word. */
  lemma StartMarkerColon(s: seq<char>, p: nat, j: nat) returns (q: nat)
    requires p <= |s| && StartMarkerRel(s, p, j)
    ensures LitAt(s, p, "установил", true) && q == Span(s, p + 9, Space)
    ensures q < |s| && s[q] == ':' && SpaceToNewline(s, q + 1, j)
  {
    q :| p + 9 <= q < |s| && All(s, p + 9, q, Space) && s[q] == ':' && SpaceToNewline(s, q + 1, j);
    SpanBounds(s, p + 9, q, Space);
  }

  lemma StartMarkerComplete(s: seq<char>, p: nat, q: nat, j: nat)
    requires p <= |s| && LitAt(s, p, "установил", true) && q == Span(s, p + 9, Space)
    requires q < |s| && s[q] == ':' && SpaceToNewline(s, q + 1, j)
    ensures StartMarkerEnd(s, p).Some? && j <= StartMarkerEnd(s, p).value
  {
    ThroughLastNewlineIsLongest(s, q + 1);
  }

  /** The greatest position below `p` where the start marker matches. */
  function LastStartMarker(s: seq<char>, p: nat): (r: Option<nat>)
    requires p <= |s|
    ensures r.Some? ==> r.value < p && StartMarkerEnd(s, r.value).Some?
    ensures forall k: nat :: (r.Some? ==> r.value < k) && k < p ==> StartMarkerEnd(s, k).None?
  {
    if p == 0 then None
    else if StartMarkerEnd(s, p - 1).Some? then Some(p - 1)
    else LastStartMarker(s, p - 1)
  }

  // ---------------------------------------------------------------------------
  // The end marker of cut_parts: (\n|суд)\s*решил\s*:\s*\n.*$  (re.IGNORECASE | re.DOTALL)

  /** `\s*решил\s*:\s*\n` matches at `q`. */
  predicate DecidedAt(s: seq<char>, q: nat)
    requires q <= |s|
  {
    var r := Span(s, q, Space);
    LitAt(s, r, "решил", true) &&
    var t := Span(s, r + 5, Space);
    t < |s| && s[t] == ':' && ThroughLastNewline(s, t + 1).Some?
  }

  predicate EndMarkerAt(s: seq<char>, p: nat)
    requires p < |s|
  {
    (s[p] == '\n' && DecidedAt(s, p + 1)) || (LitAt(s, p, "суд", true) && DecidedAt(s, p + 3))
  }

  /** `s[q..u]` splits as `\s*` `решил` `\s*` `:` `\s*\n` at `r`, `t` and `u`. */
  ghost predicate DecidedSplit(s: seq<char>, q: nat, r: nat, t: nat, u: nat) {
    && q <= r && All(s, q, r, Space) && LitAt(s, r, "решил", true)
    && r + 5 <= t < |s| && All(s, r + 5, t, Space) && s[t] == ':'
    && SpaceToNewline(s, t + 1, u)
  }

  ghost predicate DecidedRel(s: seq<char>, q: nat) {
    exists r: nat, t: nat, u: nat :: DecidedSplit(s, q, r, t, u)
  }

  ghost predicate EndMarkerRel(s: seq<char>, p: nat) {
    p < |s| && ((s[p] == '\n' && DecidedRel(s, p + 1)) || (LitAt(s, p, "суд", true) && DecidedRel(s, p + 3)))
  }

  lemma DecidedSound(s: seq<char>, q: nat)
    requires q <= |s| && DecidedAt(s, q)
    ensures DecidedRel(s, q)
  {
    var r := Span(s, q, Space);
    var t := Span(s, r + 5, Space);
    ThroughLastNewlineIsLongest(s, t + 1);
    var u := ThroughLastNewline(s, t + 1).value;
    assert DecidedSplit(s, q, r, t, u);
  }

  lemma DecidedComplete(s: seq<char>, q: nat, r: nat, t: nat, u: nat)
    requires q <= |s| && DecidedSplit(s, q, r, t, u)
    ensures DecidedAt(s, q)
  {
    assert EqCI(s[r + 0], "решил"[0]);
    SpanBounds(s, q, r, Space);
    assert r == Span(s, q, Space);
    SpanBounds(s, r + 5, t, Space);
    assert t == Span(s, r + 5, Space);
    ThroughLastNewlineIsLongest(s, t + 1);
  }

  lemma DecidedIff(s: seq<char>, q: nat)
    requires q <= |s|
    ensures DecidedAt(s, q) <==> DecidedRel(s, q)
  {
    if DecidedAt(s, q) { DecidedSound(s, q); }
    if DecidedRel(s, q) {
      var r, t, u :| DecidedSplit(s, q, r, t, u);
      DecidedComplete(s, q, r, t, u);
    }
  }

  lemma EndMarkerIff(s: seq<char>, p: nat)
    requires p < |s|
    ensures EndMarkerAt(s, p) <==> EndMarkerRel(s, p)
  {
    DecidedIff(s, p + 1);
    if p + 3 <= |s| { DecidedIff(s, p + 3); }
  }

  /** The least position at or after `p` where the end marker matches. */
  function FirstEndMarker(s: seq<char>, p: nat): (r: Option<nat>)
    requires p <= |s|
    ensures r.Some? ==> p <= r.value < |s| && EndMarkerAt(s, r.value)
    ensures forall k :: p <= k < |s| && (r.Some? ==> k < r.value) ==> !EndMarkerAt(s, k)
    decreases |s| - p
  {
    if p == |s| then None
    else if EndMarkerAt(s, p) then Some(p)
    else FirstEndMarker(s, p + 1)
  }
}
