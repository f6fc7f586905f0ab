/** The statute-name abbreviations shared by both normalisers
    (`codex_regexes` in `text_processing/base.py` and
    `text_processing/tika_parsing.py`): five case-insensitive patterns that
    tolerate any whitespace between words, replaced by the codes АПК, ГК, НК,
    КАС and КоАП, in that order. */
module Statutes {
  import opened Chars
  import opened Pattern
  import opened Rewrite

  /** `арбитражн[а-я]*[\s\-]+процессуальн[а-я]*\s+кодекс[а-я]*`: the arbitration procedure code. */
  const Apk: Rule := Replace([[
    Lit("арбитражн", true), Run(CyrAnyCase, 0), Run(SpaceOrDash, 1),
    Lit("процессуальн", true), Run(CyrAnyCase, 0), Run(Space, 1),
    Lit("кодекс", true), Run(CyrAnyCase, 0)]], "АПК")

  /** `гражданск[а-я]*\s+кодекс[а-я]*`: the civil code. */
  const Gk: Rule := Replace([[
    Lit("гражданск", true), Run(CyrAnyCase, 0), Run(Space, 1),
    Lit("кодекс", true), Run(CyrAnyCase, 0)]], "ГК")

  /** `налогов[а-я]*\s+кодекс[а-я]*`: the tax code. */
  const Nk: Rule := Replace([[
    Lit("налогов", true), Run(CyrAnyCase, 0), Run(Space, 1),
    Lit("кодекс", true), Run(CyrAnyCase, 0)]], "НК")

  /** `кодекс[а-я]*\s+административного\s+судопроизводства`: the administrative procedure code. */
  const Kas: Rule := Replace([[
    Lit("кодекс", true), Run(CyrAnyCase, 0), Run(Space, 1),
    Lit("административного", true), Run(Space, 1),
    Lit("судопроизводства", true)]], "КАС")

  /** `кодекс[а-я]*\s+(об\s+)?административн[а-я]*\s+правонарушени[а-я]*`: the code of
      administrative offences. The optional `об` is tried first. */
  const Koap: Rule := Replace([KoapWithOb, KoapWithoutOb], "КоАП")

  const KoapWithOb: Alt := [
    Lit("кодекс", true), Run(CyrAnyCase, 0), Run(Space, 1),
    Lit("об", true), Run(Space, 1),
    Lit("административн", true), Run(CyrAnyCase, 0), Run(Space, 1),
    Lit("правонарушени", true), Run(CyrAnyCase, 0)]

  const KoapWithoutOb: Alt := [
    Lit("кодекс", true), Run(CyrAnyCase, 0), Run(Space, 1),
    Lit("административн", true), Run(CyrAnyCase, 0), Run(Space, 1),
    Lit("правонарушени", true), Run(CyrAnyCase, 0)]

  /** The table in dictionary (insertion) order. */
  const Codices: seq<Rule> := [Apk, Gk, Nk, Kas, Koap]

  /** The loop over `codex_regexes.items()`. */
  function Abbreviate(s: seq<char>): (r: seq<char>)
    ensures (forall q :: 0 <= q < |s| ==> !LitAt(s, q, "кодекс", true)) ==> r == s
  {
    var r := SubAll(Codices, s);
    if forall q :: 0 <= q < |s| ==> !LitAt(s, q, "кодекс", true) then
      NoCodeWordUntouched(s);
      r
    else r
  }

  /** Every statute pattern spells out the word "кодекс". */
  lemma CodicesAnchored()
    ensures forall i :: 0 <= i < |Codices| ==> Codices[i].Replace? && Anchored(Codices[i].alts, "кодекс", true)
  {
  }

  /** A text that never mentions "кодекс", in any case, has no statute name to abbreviate. */
  lemma NoCodeWordUntouched(s: seq<char>)
    requires forall q :: 0 <= q < |s| ==> !LitAt(s, q, "кодекс", true)
    ensures forall i :: 0 <= i < |Codices| ==> Untouched(Codices[i], s, 0)
  {
    CodicesAnchored();
    forall i | 0 <= i < |Codices| ensures Untouched(Codices[i], s, 0) {
      forall q | 0 <= q < |s| ensures MatchAt(Codices[i], s, q).None? {
        AnchoredMatch(Codices[i].alts, "кодекс", true, s, q);
      }
    }
  }
}
