/** The court-ruling normaliser of `text_processing/base.py`: `fix_cap_spaces`,
    `remove_newlines`, `cut_parts`, `parse_orgs_simple` with `make_regex`, and
    `preprocess`, which chains them. */
module Normalizer {
  import opened Chars
  import opened Pattern
  import opened Layout
  import opened Rewrite
  import opened Statutes
  import opened Numbers

  // ---------------------------------------------------------------------------
  // Whitespace repairs

  /** `fix_cap_spaces`: letters typed with blanks between them are glued back
      together; nothing but whitespace changes. */
  function FixCapSpaces(s: seq<char>): (r: seq<char>)
    ensures NonSpace(r) == NonSpace(s)
  {
    SubKeepsNonSpace(CollapseCaps, s, 0);
    Sub(CollapseCaps, s)
  }

  /** `remove_newlines`: a line break after a letter, digit, comma, quote or
      bracket becomes one blank; nothing but whitespace changes. */
  function RemoveNewlines(s: seq<char>): (r: seq<char>)
    ensures NonSpace(r) == NonSpace(s)
  {
    SubKeepsNonSpace(JoinLines, s, 0);
    Sub(JoinLines, s)
  }

  /** At the leftmost spaced-capitals match `s[q..j]`, `fix_cap_spaces` keeps the
      text before it and writes a blank, the rest of the match with every blank
      deleted, and a blank; the scan resumes after the match. */
  lemma FixCapSpacesAtFirst(s: seq<char>, q: nat)
    requires q < |s| && CapMatchAt(s, q).Some?
    requires forall k :: 0 <= k < q ==> CapMatchAt(s, k).None?
    ensures CapRel(s, q, CapMatchAt(s, q).value)
    ensures FixCapSpaces(s)
            == s[..q] + (" " + RemoveBlanks(s[q + 1..CapMatchAt(s, q).value]) + " ") + SubFrom(CollapseCaps, s, CapMatchAt(s, q).value)
  {
    var j := CapMatchAt(s, q).value;
    CapMatchSound(s, q);
    LeftmostRewrite(CollapseCaps, s, q, j);
  }

  /** At the leftmost line-join match `s[q..j]`, `remove_newlines` keeps the text
      before it and the character at `q`, and writes one blank for the whitespace
      through the last newline; the scan resumes after the match. */
  lemma RemoveNewlinesAtFirst(s: seq<char>, q: nat)
    requires q < |s| && JoinMatchAt(s, q).Some?
    requires forall k :: 0 <= k < q ==> JoinMatchAt(s, k).None?
    ensures JoinRel(s, q, JoinMatchAt(s, q).value)
    ensures RemoveNewlines(s) == s[..q] + [s[q], ' '] + SubFrom(JoinLines, s, JoinMatchAt(s, q).value)
  {
    var j := JoinMatchAt(s, q).value;
    JoinMatchIsLongest(s, q);
    LeftmostRewrite(JoinLines, s, q, j);
  }

  // ---------------------------------------------------------------------------
  // cut_parts

  /** The start cut ends at `e`: a start marker match `s[p..e]`, the longest at
      `p`, where `p` is the last position any start marker match begins. */
  ghost predicate StartCut(s: seq<char>, e: nat) {
    exists p: nat :: StartMarkerRel(s, p, e)
      && (forall j: nat :: StartMarkerRel(s, p, j) ==> j <= e)
      && (forall p': nat, j: nat :: p < p' && StartMarkerRel(s, p', j) ==> false)
  }

  /** `re.sub(r'^.*установил\s*:\s*\n', '', text, 1, re.IGNORECASE | re.DOTALL)`:
      the greedy `.*` makes the cut end after the last marker. */
  function CutStart(s: seq<char>): (r: seq<char>)
    ensures |r| <= |s| && r == s[|s| - |r|..]
    ensures (forall p: nat, j: nat :: !StartMarkerRel(s, p, j)) ==> r == s
    ensures (exists p: nat, j: nat :: StartMarkerRel(s, p, j)) ==> |r| < |s| && StartCut(s, |s| - |r|)
  {
    match LastStartMarker(s, |s|)
    case None =>
      NoStartMarker(s);
      s
    case Some(p) =>
      var e := StartMarkerEnd(s, p).value;
      LastStartMarkerCut(s, p);
      s[e..]
  }

  lemma NoStartMarker(s: seq<char>)
    requires LastStartMarker(s, |s|).None?
    ensures forall p: nat, j: nat :: !StartMarkerRel(s, p, j)
  {
    forall p: nat, j: nat | StartMarkerRel(s, p, j) ensures false {
      StartMarkerIsLongest(s, p);
    }
  }

  lemma LastStartMarkerCut(s: seq<char>, p: nat)
    requires LastStartMarker(s, |s|) == Some(p)
    ensures StartCut(s, StartMarkerEnd(s, p).value)
  {
    var e := StartMarkerEnd(s, p).value;
    StartMarkerIsLongest(s, p);
    forall p': nat, j: nat | p < p' && StartMarkerRel(s, p', j) ensures false {
      StartMarkerIsLongest(s, p');
    }
    assert StartMarkerRel(s, p, e);
  }

  /** `re.sub(r'(\n|суд)\s*решил\s*:\s*\n.*$', '', text, 1, re.IGNORECASE | re.DOTALL)`:
      everything from the leftmost end marker on is dropped. */
  function CutEnd(s: seq<char>): (r: seq<char>)
    ensures |r| <= |s| && r == s[..|r|]
    ensures (forall p :: 0 <= p < |s| ==> !EndMarkerRel(s, p)) ==> r == s
    ensures (exists p :: 0 <= p < |s| && EndMarkerRel(s, p)) ==>
              |r| < |s| && EndMarkerRel(s, |r|) && forall p :: 0 <= p < |r| ==> !EndMarkerRel(s, p)
  {
    match FirstEndMarker(s, 0)
    case None =>
      forall p | 0 <= p < |s| ensures !EndMarkerRel(s, p) { EndMarkerIff(s, p); }
      s
    case Some(p) =>
      EndMarkerIff(s, p);
      forall k | 0 <= k < p ensures !EndMarkerRel(s, k) { EndMarkerIff(s, k); }
      s[..p]
  }

  /** `cut_parts`: what is left is one contiguous piece of the text. */
  function CutParts(s: seq<char>): (r: seq<char>)
    ensures exists a: nat, b: nat :: a <= b <= |s| && r == s[a..b]
  {
    var t := CutStart(s);
    var r := CutEnd(t);
    PrefixOfSuffix(s, t, r, |s| - |t|);
    r
  }

  /** A prefix of a suffix is a slice. */
  lemma PrefixOfSuffix(s: seq<char>, t: seq<char>, r: seq<char>, a: nat)
    requires a + |t| == |s| && t == s[a..] && |r| <= |t| && r == t[..|r|]
    ensures a + |r| <= |s| && r == s[a..a + |r|]
  {
  }

  // ---------------------------------------------------------------------------
  // preprocess

  /** `preprocess`: strip, glue spaced capitals, cut to the reasoning part,
      abbreviate statute names, join lines, replace amounts and long numbers. */
  function Preprocess(s: seq<char>): (r: seq<char>)
    ensures ShortDigitRuns(r)
  {
    RemoveNumbers(RemoveNewlines(Abbreviate(CutParts(FixCapSpaces(Strip(s))))))
  }

  // ---------------------------------------------------------------------------
  // parse_orgs_simple

  /** A pattern source as `make_regex` receives it: literal words, classes and
      single blanks. */
  function CompileStep(st: Step): Step {
    match st
    case Lit(w, _) => if w == " " then Run(Space, 1) else Lit(w, true)
    case _ => st
  }

  /** `make_regex`: every blank of the pattern becomes `\s+` and the pattern
      ignores case. */
  function MakeRegex(parts: seq<Step>): (r: seq<Step>)
    ensures |r| == |parts|
    ensures forall i :: 0 <= i < |r| ==> r[i] == CompileStep(parts[i])
  {
    seq(|parts|, i requires 0 <= i < |parts| => CompileStep(parts[i]))
  }

  /** Compiling only widens a pattern: whatever the source matches literally,
      the compiled pattern matches too. */
  lemma {:induction false} MakeRegexWidens(parts: seq<Step>, s: seq<char>, p: nat, j: nat)
    requires Rel(parts, s, p, j)
    ensures Rel(MakeRegex(parts), s, p, j)
    decreases |parts|
  {
    if |parts| > 0 {
      var r := MakeRegex(parts);
      assert r[1..] == MakeRegex(parts[1..]);
      match parts[0]
      case Lit(w, ci) =>
        MakeRegexWidens(parts[1..], s, p + |w|, j);
        if w == " " {
          assert All(s, p, p + 1, Space) by {
            assert LitAt(s, p, w, ci) && w[0] == ' ';
            if ci { EqCIForms(s[p], ' '); }
          }
          assert Rel(r[1..], s, p + 1, j);
        } else {
          assert LitAt(s, p, w, true) by {
            forall k | 0 <= k < |w| ensures EqCI(s[p + k], w[k]) { assert LitAt(s, p, w, ci); }
          }
        }
      case One(cls) => MakeRegexWidens(parts[1..], s, p + 1, j);
      case Run(cls, m) =>
        var e: nat :| p + m <= e && All(s, p, e, cls) && Rel(parts[1..], s, e, j);
        MakeRegexWidens(parts[1..], s, e, j);
    }
  }

  /** `обществ[\w]+ с ограниченной ответственностью` */
  const OooSource: seq<Step> :=
    [Lit("обществ", false), Run(Word, 1), Lit(" ", false), Lit("с", false), Lit(" ", false),
     Lit("ограниченной", false), Lit(" ", false), Lit("ответственностью", false)]

  /** `<kind>\w+ акицонерно\w+ обществ\w+`, spelled as in the source. */
  function JointStockSource(kind: seq<char>, joint: seq<char>): seq<Step> {
    [Lit(kind, false), Run(Word, 1), Lit(" ", false), Lit(joint, false), Run(Word, 1), Lit(" ", false),
     Lit("обществ", false), Run(Word, 1)]
  }

  /** `акицонерно\w+ обществ\w+` */
  function PlainJointStockSource(joint: seq<char>): seq<Step> {
    [Lit(joint, false), Run(Word, 1), Lit(" ", false), Lit("обществ", false), Run(Word, 1)]
  }

  const Ooo: Rule := Replace([MakeRegex(OooSource)], "ООО")

  /** The joint-stock rules for a spelling of "акционерно". */
  function JointStock(kind: seq<char>, joint: seq<char>, code: seq<char>): Rule
    requires |kind| > 0 && |joint| > 0 && kind != " " && joint != " "
    requires !IsSpace(joint[0]) && !IsSpace(Fold(joint[0])) && !IsSpace(Unfold(joint[0]))
  {
    Replace([MakeRegex(JointStockSource(kind, joint))], code)
  }

  function PlainJointStock(joint: seq<char>): Rule
    requires |joint| > 0 && joint != " "
  {
    Replace([MakeRegex(PlainJointStockSource(joint))], "АО")
  }

  /** The spelling of the source. */
  const Typo: seq<char> := "акицонерно"
  /** The Russian word the rules are meant to recognise. */
  const Joint: seq<char> := "акционерно"

  /** `abbrs` in list order, with the given spelling of "акционерно". */
  function Abbrs(joint: seq<char>): seq<Rule>
    requires |joint| > 0 && !IsSpace(joint[0]) && !IsSpace(Fold(joint[0])) && !IsSpace(Unfold(joint[0]))
  {
    [Ooo,
     JointStock("открыто", joint, "ОАО"),
     JointStock("закрыто", joint, "ЗАО"),
     JointStock("публично", joint, "ПАО"),
     PlainJointStock(joint)]
  }

  /** `«[^»0-9]*»`: a quoted name with no digit. */
  const QuotedName: Rule := Replace([[Lit("«", false), Run(NotCloseQuoteOrDigit, 0), Lit("»", false)]], "ORG")

  /** `parse_orgs_simple` as written. */
  function ParseOrgsSimple(s: seq<char>): (r: seq<char>)
    ensures (forall q :: 0 <= q < |s| ==> !LitAt(s, q, "ограниченной", true) && !LitAt(s, q, Typo, true) && !LitAt(s, q, "«", false)) ==> r == s
  {
    var r := Sub(QuotedName, SubAll(Abbrs(Typo), s));
    if forall q :: 0 <= q < |s| ==> !LitAt(s, q, "ограниченной", true) && !LitAt(s, q, Typo, true) && !LitAt(s, q, "«", false) then
      UnabbreviatedUntouched(s, Typo);
      r
    else r
  }

  /** `parse_orgs_simple` with the rules spelled "акционерно". */
  function ParseOrgsIntended(s: seq<char>): (r: seq<char>)
    ensures (forall q :: 0 <= q < |s| ==> !LitAt(s, q, "ограниченной", true) && !LitAt(s, q, Joint, true) && !LitAt(s, q, "«", false)) ==> r == s
  {
    var r := Sub(QuotedName, SubAll(Abbrs(Joint), s));
    if forall q :: 0 <= q < |s| ==> !LitAt(s, q, "ограниченной", true) && !LitAt(s, q, Joint, true) && !LitAt(s, q, "«", false) then
      UnabbreviatedUntouched(s, Joint);
      r
    else r
  }

  /** `«[^»0-9]*»` matches `s[p..j]` exactly when `s[p]` is `«`, `s[j-1]` is `»`
      and nothing in between is a `»` or a digit. */
  lemma QuotedNameAt(s: seq<char>, p: nat, j: nat)
    requires p < |s|
    ensures MatchAt(QuotedName, s, p) == Some(j) <==>
              s[p] == '«' && p + 2 <= j <= |s| && s[j - 1] == '»' && All(s, p + 1, j - 1, NotCloseQuoteOrDigit)
  {
    var alt := QuotedName.alts[0];
    assert MatchAt(QuotedName, s, p) == Possessive(alt, s, p);
    if s[p] != '«' {
      assert "«"[0] == '«';
      assert !LitAt(s, p, "«", false);
      return;
    }
    assert LitAt(s, p, "«", false);
    var e := Span(s, p + 1, NotCloseQuoteOrDigit);
    assert alt[1..][1..] == [Lit("»", false)];
    assert Possessive(alt, s, p) == Possessive(alt[1..], s, p + 1);
    assert Possessive(alt[1..], s, p + 1) == Possessive(alt[1..][1..], s, e);
    if e < |s| && s[e] == '»' {
      assert LitAt(s, e, "»", false);
      assert Possessive(alt, s, p) == Some(e + 1);
    } else {
      assert !LitAt(s, e, "»", false);
      assert Possessive(alt, s, p).None?;
    }
    if p + 2 <= j <= |s| && s[j - 1] == '»' && All(s, p + 1, j - 1, NotCloseQuoteOrDigit) {
      SpanBounds(s, p + 1, j - 1, NotCloseQuoteOrDigit);
    }
  }

  /** After the abbreviation rules, the leftmost quoted name `t[q..j]` becomes
      `ORG`, the text before it is kept and the scan resumes after it. */
  lemma ParseOrgsQuotedAtFirst(s: seq<char>, q: nat, j: nat)
    ensures var t := SubAll(Abbrs(Typo), s);
            q < |t| && MatchAt(QuotedName, t, q) == Some(j) && (forall k :: 0 <= k < q ==> MatchAt(QuotedName, t, k).None?)
            ==> ParseOrgsSimple(s) == t[..q] + "ORG" + SubFrom(QuotedName, t, j)
  {
    var t := SubAll(Abbrs(Typo), s);
    if q < |t| && MatchAt(QuotedName, t, q) == Some(j) && (forall k :: 0 <= k < q ==> MatchAt(QuotedName, t, k).None?) {
      LeftmostRewrite(QuotedName, t, q, j);
    }
  }

  /** A quoted span that holds a digit before its first `»` is not replaced by `ORG`. */
  lemma QuotedDigitKept(s: seq<char>, p: nat, d: nat)
    requires p < d < |s| && IsDigit(s[d])
    requires forall k :: p < k < d ==> s[k] != '»'
    ensures MatchAt(QuotedName, s, p).None?
  {
    if MatchAt(QuotedName, s, p).Some? {
      var j := MatchAt(QuotedName, s, p).value;
      QuotedNameAt(s, p, j);
    }
  }

  /** Without the words the rules spell out, nothing is abbreviated. */
  lemma UnabbreviatedUntouched(s: seq<char>, joint: seq<char>)
    requires |joint| > 0 && !IsSpace(joint[0]) && !IsSpace(Fold(joint[0])) && !IsSpace(Unfold(joint[0]))
    requires forall q :: 0 <= q < |s| ==> !LitAt(s, q, "ограниченной", true) && !LitAt(s, q, joint, true) && !LitAt(s, q, "«", false)
    ensures forall i :: 0 <= i < |Abbrs(joint)| ==> Untouched(Abbrs(joint)[i], s, 0)
    ensures Untouched(QuotedName, s, 0)
  {
    var rules := Abbrs(joint);
    forall i, q | 0 <= i < |rules| && 0 <= q < |s| ensures MatchAt(rules[i], s, q).None? {
      if i == 0 {
        assert rules[i].alts[0][5] == Lit("ограниченной", true);
        assert Anchored(rules[i].alts, "ограниченной", true);
        AnchoredMatch(rules[i].alts, "ограниченной", true, s, q);
      } else {
        assert rules[i].alts[0][if i == 4 then 0 else 3] == Lit(joint, true);
        assert Anchored(rules[i].alts, joint, true);
        AnchoredMatch(rules[i].alts, joint, true, s, q);
      }
    }
    forall q | 0 <= q < |s| ensures MatchAt(QuotedName, s, q).None? {
      AnchoredMatch(QuotedName.alts, "«", false, s, q);
    }
  }

  /** The full name of an open joint-stock company, as court rulings spell it. */
  const OpenJointStock: seq<char> := "открытое акционерное общество"

  /** As written, the misspelled rules never recognise the correctly spelled name. */
  lemma TypoMissesFullName()
    ensures ParseOrgsSimple(OpenJointStock) == OpenJointStock
  {
    var s := OpenJointStock;
    NoLimitedInFullName();
    NoTypoInFullName();
    NoQuoteInFullName();
    assert forall q :: 0 <= q < |s| ==> !LitAt(s, q, "ограниченной", true) && !LitAt(s, q, Typo, true) && !LitAt(s, q, "«", false);
  }

  lemma NoLimitedInFullName()
    ensures forall q :: !LitAt(OpenJointStock, q, "ограниченной", true)
  {
    LetterAbsent(OpenJointStock, "ограниченной", true, 1);
  }

  lemma NoTypoInFullName()
    ensures forall q :: !LitAt(OpenJointStock, q, Typo, true)
  {
    PairAbsent(OpenJointStock, Typo, true, 2);
  }

  lemma NoQuoteInFullName()
    ensures forall q :: !LitAt(OpenJointStock, q, "«", false)
  {
    LetterAbsent(OpenJointStock, "«", false, 0);
  }

  /** With the intended spelling the name becomes `ОАО`. */
  lemma IntendedAbbreviatesFullName()
    ensures ParseOrgsIntended(OpenJointStock) == "ОАО"
  {
    var s, rules := OpenJointStock, Abbrs(Joint);
    FullNameNotLimited();
    assert SubAll(rules, s) == SubAll(rules[1..], s);
    FullNameAbbreviated();
    assert rules[1..][1..] == rules[2..];
    assert SubAll(rules[1..], s) == SubAll(rules[2..], "ОАО");
    CodeStaysPut();
  }

  lemma FullNameNotLimited()
    ensures Sub(Abbrs(Joint)[0], OpenJointStock) == OpenJointStock
  {
    var s, rule := OpenJointStock, Abbrs(Joint)[0];
    LetterAbsent(s, "ограниченной", true, 1);
    assert rule.alts[0][5] == Lit("ограниченной", true);
    AnchoredUntouched(rule.alts, "ООО", "ограниченной", true, s);
  }

  lemma FullNameAbbreviated()
    ensures Sub(Abbrs(Joint)[1], OpenJointStock) == "ОАО"
  {
    var s, rule := OpenJointStock, Abbrs(Joint)[1];
    OpenJointStockMatches();
    SubFromMatch(rule, s, 0);
  }

  /** No rule applies to the code `ОАО` itself. */
  lemma CodeStaysPut()
    ensures SubAll(Abbrs(Joint)[2..], "ОАО") == "ОАО"
    ensures Sub(QuotedName, "ОАО") == "ОАО"
  {
    var t, rules := "ОАО", Abbrs(Joint)[2..];
    forall i, q | 0 <= i < |rules| && 0 <= q < |t| ensures MatchAt(rules[i], t, q).None? {
      assert rules[i].alts[0][0].Lit? && |rules[i].alts[0][0].text| > 3;
      assert Anchored(rules[i].alts, rules[i].alts[0][0].text, true);
      AnchoredMatch(rules[i].alts, rules[i].alts[0][0].text, true, t, q);
    }
    LetterAbsent(t, "«", false, 0);
    AnchoredUntouched(QuotedName.alts, "ORG", "«", false, t);
  }

  /** The intended open joint-stock rule matches the whole full name. */
  lemma OpenJointStockMatches()
    ensures MatchAt(Abbrs(Joint)[1], OpenJointStock, 0) == Some(|OpenJointStock|)
  {
    var steps := MakeRegex(JointStockSource("открыто", Joint));
    assert steps == OpenJointStockSteps;
    FullNameScan();
  }

  /** `открыто\w+\s+акционерно\w+\s+обществ\w+` after `make_regex`. */
  const OpenJointStockSteps: seq<Step> :=
    [Lit("открыто", true), Run(Word, 1), Run(Space, 1), Lit(Joint, true), Run(Word, 1), Run(Space, 1),
     Lit("обществ", true), Run(Word, 1)]

  lemma FullNameScan()
    ensures Possessive(OpenJointStockSteps, OpenJointStock, 0) == Some(29)
  {
    var st, s := OpenJointStockSteps, OpenJointStock;
    FullNameScanFrom8();
    assert st[1..][1..] == st[2..];
    assert Span(s, 7, Word) == 8;
    PossessiveRun(st[1..], s, 7, 8, 29);
    FullNameKind();
    PossessiveLit(st, s, 0, 29);
  }

  lemma FullNameScanFrom8()
    ensures Possessive(OpenJointStockSteps[2..], OpenJointStock, 8) == Some(29)
  {
    var st, s := OpenJointStockSteps, OpenJointStock;
    FullNameScanFrom9();
    assert st[2..][1..] == st[3..];
    FirstGap();
    PossessiveRun(st[2..], s, 8, 9, 29);
  }

  lemma FullNameScanFrom9()
    ensures Possessive(OpenJointStockSteps[3..], OpenJointStock, 9) == Some(29)
  {
    var st, s := OpenJointStockSteps, OpenJointStock;
    FullNameScanFrom19();
    assert st[3..][1..] == st[4..];
    assert st[3..][0] == Lit(Joint, true);
    FullNameJoint();
    PossessiveLit(st[3..], s, 9, 29);
  }

  lemma FullNameScanFrom19()
    ensures Possessive(OpenJointStockSteps[4..], OpenJointStock, 19) == Some(29)
  {
    var st, s := OpenJointStockSteps, OpenJointStock;
    assert st[8..] == [];
    assert Possessive(st[8..], s, 29) == Some(29);
    assert st[7..][1..] == st[8..];
    assert Span(s, 28, Word) == 29;
    PossessiveRun(st[7..], s, 28, 29, 29);
    assert st[6..][1..] == st[7..];
    FullNameSociety();
    PossessiveLit(st[6..], s, 21, 29);
    assert st[5..][1..] == st[6..];
    assert Span(s, 20, Space) == 21;
    PossessiveRun(st[5..], s, 20, 21, 29);
    assert st[4..][1..] == st[5..];
    assert Span(s, 19, Word) == 20;
    PossessiveRun(st[4..], s, 19, 20, 29);
  }

  lemma FirstGap() ensures Span(OpenJointStock, 8, Space) == 9
  {
    var s := OpenJointStock;
    assert s[8] == ' ' && s[9] == 'а';
    assert !In(Space, s[9]);
    assert Span(s, 9, Space) == 9;
  }
  lemma FullNameKind() ensures LitAt(OpenJointStock, 0, "открыто", true) {}
  lemma FullNameJoint() ensures LitAt(OpenJointStock, 9, Joint, true) {}
  lemma FullNameSociety() ensures LitAt(OpenJointStock, 21, "обществ", true) {}
}
