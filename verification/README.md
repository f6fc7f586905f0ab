# Court-ruling recommender: text normalisation, ranking and evaluation in Dafny

The repository crawls rulings of Russian arbitration courts, normalises their
text, trains LSI and LDA topic models on it and recommends similar rulings.
This project models the parts of it that are plain logic:

- **The normaliser of `text_processing/base.py`.** It covers `str.strip`,
  `fix_cap_spaces`, `cut_parts`, the statute-name abbreviations,
  `remove_newlines`, `remove_numbers`, `preprocess`, `make_regex` and
  `parse_orgs_simple`.
- **The older normaliser of `text_processing/tika_parsing.py`.**
- **The tokeniser.** It covers the stop-word filter and the memoising
  `key_dependent_dict` of `recommenders/models.py` and `recommenders/lsi.py`.
- **The ranking rule `np.argsort(-sims)[1:]`.**
- **The caching corpus of `recommenders/util.py`.**
- **The offline evaluator of `recommenders/evaluation.py`.** This covers the
  judgment table, precision, average precision, DCG, the NaN-aware means and
  `evaluate`.
- **The crawler's storage path `get_path`.**

## How the regular expressions are modelled

Python's `re` is a backtracking matcher. Most of the normaliser's patterns are
linear: literals, single character classes and greedy runs. Each greedy run is
followed by something it cannot swallow. Module `Pattern` gives two meanings
to such a pattern:

- `Rel`: some split of the text fits the pattern.
- `Possessive`: a scanner in which every run is maximal.

It proves that the scanner finds a match whenever one exists, and that the
match it finds is the longest (`Pattern.PossessiveLongest`). A greedy
backtracking matcher reports exactly that match for such patterns.

An optional group or an alternation is written out as an ordered list of
alternatives, tried in the order the matcher tries them.

Some patterns need backtracking into a greedy part:

- the spaced-capitals collapse;
- the line joiner;
- the two markers `cut_parts` cuts at.

Each of these gets its own scanner in `Layout`, plus a relational predicate
and a lemma that the scanner reports the longest match.

Module `Rewrite` models `re.sub` as a left-to-right scan. Module `Tika` models
`finditer` followed by `str.replace(…, 1)`.

Modules, one per file:

- `Chars`: character classes, case folding, maximal runs and `strip`.
- `Pattern`: the regex engine and its theorems.
- `Layout`: the non-linear patterns.
- `Rewrite`: `re.sub`.
- `Statutes`: the codex table.
- `Numbers`: `remove_numbers`.
- `Normalizer`: the rest of `base.py`.
- `Tika`: `tika_parsing.py`.
- `Tokenizer`.
- `Ranking`.
- `Corpus`: `util.py`.
- `Evaluation`.
- `ShardPath`: `get_path`.

## Model

| member | source | states |
|---|---|---|
| Chars.Strip | text_processing/base.py:83 | the result is one slice of the input with only whitespace cut from either side, and neither of its ends is whitespace |
| Chars.StripIdempotent | text_processing/base.py:83 | stripping a stripped text changes nothing |
| Chars.StripKeepsNonSpace | text_processing/base.py:83 | `strip` deletes whitespace only: the non-whitespace characters survive, in order |
| Chars.NonSpaceRemoveBlanks | text_processing/base.py:37 | `replace(' ', '')` removes nothing but whitespace |
| Chars.RemoveBlanksIdempotent | text_processing/base.py:37 | deleting blanks twice is deleting them once |
| Pattern.Possessive | text_processing/base.py:13-17 | whatever the maximal-run scanner returns is a genuine match of the pattern |
| Pattern.PossessiveLongest | text_processing/base.py:13-17 | on a pattern whose runs each stop before the next step, every match implies that the scanner succeeds with one at least as long |
| Pattern.FirstMatch | text_processing/base.py:17 | a reported match is a match of one of the alternatives |
| Pattern.FirstMatchIsFirstLongest | text_processing/base.py:17 | if any alternative matches, the result is the longest match of the first alternative that matches at all, and every earlier alternative fails (`(об\s+)?` is tried with `об` first) |
| Pattern.AnchoredMatch | text_processing/base.py:13-17 | a pattern whose every alternative contains a literal cannot match without an occurrence of that literal inside the match |
| Layout.ThroughLastNewlineIsLongest | text_processing/base.py:41 | `\s*\n+` from a position ends just after the last newline of the whitespace run there, and no longer match exists |
| Layout.JoinMatchIsLongest | text_processing/base.py:41 | the joiner matches exactly from a letter, digit, comma, quote or bracket through the last newline of the following whitespace |
| Layout.CapMatchIsLongest | text_processing/base.py:33 | the scanner's match is a spaced-capitals match (whitespace, three or more letters separated by whitespace runs, a non-word character), and every such match at that position is no longer |
| Layout.TikaCapMatchIsLongest | text_processing/tika_parsing.py:18 | same for `(([А-Я] ){2,}[А-Я])`: capitals separated by single blanks, at least three, longest |
| Layout.StartMarkerIsLongest | text_processing/base.py:77 | the start-marker scanner's result is a match of `установил\s*:\s*\n` at that position, and no match there is longer |
| Layout.LastStartMarker | text_processing/base.py:77 | the greatest position below the bound where the start marker matches; none above it |
| Layout.EndMarkerIff | text_processing/base.py:78 | the end-marker check agrees with the relational reading of `(\n\|суд)\s*решил\s*:\s*\n` |
| Layout.FirstEndMarker | text_processing/base.py:78 | the least position where the end marker matches; none before it |
| Rewrite.Sub | text_processing/base.py:42 | `re.sub` returns the text unchanged when nothing matches anywhere |
| Rewrite.SubLeftmost | text_processing/base.py:42 | the scan copies everything before the leftmost match, emits its replacement and resumes after it |
| Rewrite.LeftmostRewrite | text_processing/base.py:42 | `re.sub` keeps the text before the leftmost match and replaces that match by its replacement |
| Rewrite.SubKeepsNonSpace | text_processing/base.py:36-42 | the spaced-capitals and line-joining substitutions change whitespace only |
| Rewrite.AnchoredUntouched | text_processing/base.py:58-59 | a substitution whose pattern always contains a literal leaves a text without that literal unchanged |
| Rewrite.SubAll | text_processing/base.py:87-88 | running a list of substitutions changes nothing when none of them matches |
| Rewrite.SubAllAppend | text_processing/base.py:87-88 | running two lists of substitutions one after the other equals running their concatenation |
| Statutes.Abbreviate | text_processing/base.py:87-88 | a text that never contains "кодекс", in any case, is returned unchanged |
| Statutes.CodicesAnchored | text_processing/base.py:12-18 | every statute pattern, in every alternative, spells out the word "кодекс" |
| Numbers.AmountBecomesSum | text_processing/base.py:51-52 | when an amount fits one of the money alternatives and no money match begins before it, the text before it is kept and the amount becomes `SUM` in the first pass, before the `NUM` rule runs |
| Numbers.LongNumberAt | text_processing/base.py:52 | `\d{5,}` matches exactly where five or more digits start, through the end of the digit run |
| Numbers.LongNumbersGone | text_processing/base.py:52 | after `\d{5,}` → `NUM` no run of five or more digits is left |
| Numbers.ShortUntouched | text_processing/base.py:52 | a text without such runs is left alone |
| Numbers.LongNumberIdempotent | text_processing/base.py:52 | the long-number replacement is idempotent |
| Numbers.RemoveNumbers | text_processing/base.py:45-54 | the output has no run of five or more digits |
| Numbers.RemoveNumbersIdempotentOnDigits | text_processing/base.py:51-52 | the long-number rule finds nothing more to do after `remove_numbers` |
| Normalizer.FixCapSpaces | text_processing/base.py:36-37 | only whitespace changes: the non-whitespace characters are those of the input, in order |
| Normalizer.RemoveNewlines | text_processing/base.py:40-42 | only whitespace changes |
| Normalizer.FixCapSpacesAtFirst | text_processing/base.py:33-37 | at the leftmost spaced-capitals match, the text before it is kept and the match becomes a blank, its letters with every blank deleted, and a blank |
| Normalizer.RemoveNewlinesAtFirst | text_processing/base.py:40-42 | at the leftmost line-join match, the text before it and the qualifying character are kept and the whitespace through the last newline becomes one blank |
| Normalizer.CutStart | text_processing/base.py:77 | the result is a suffix of the text; unchanged when no start marker occurs anywhere; when one occurs, the text is shortened and starts right after the longest marker match at the last position where one begins |
| Normalizer.CutEnd | text_processing/base.py:78 | the result is a prefix of the text; unchanged when no end marker occurs; when one occurs, the text is shortened and ends exactly at the leftmost end marker |
| Normalizer.CutParts | text_processing/base.py:76-79 | what is left is one contiguous slice of the text |
| Normalizer.Preprocess | text_processing/base.py:82-93 | the normalised text has no run of five or more digits |
| Normalizer.MakeRegexWidens | text_processing/base.py:8-9 | anything the source pattern matches literally, the compiled regex matches too |
| Normalizer.ParseOrgsSimple | text_processing/base.py:57-62 | a text without "ограниченной", without the misspelt "акицонерно" the rules look for, and without "«" comes back unchanged |
| Normalizer.UnabbreviatedUntouched | text_processing/base.py:20-26 | without those words no abbreviation rule and not the quoted-name rule matches anywhere |
| Normalizer.QuotedNameAt | text_processing/base.py:61 | `«[^»0-9]*»` matches a span exactly when it opens with `«`, closes with `»` and holds neither `»` nor a digit in between |
| Normalizer.QuotedDigitKept | text_processing/base.py:61 | a quoted span with a digit before its first `»` is not replaced by `ORG` |
| Normalizer.ParseOrgsQuotedAtFirst | text_processing/base.py:57-62 | after the abbreviation rules, the leftmost quoted name becomes `ORG` and the text before it is kept |
| Normalizer.TypoMissesFullName | text_processing/base.py:22 | as written, "открытое акционерное общество" passes through `parse_orgs_simple` unchanged |
| Normalizer.ParseOrgsIntended | text_processing/base.py:57-62 | the same function with the rules spelled "акционерно": unchanged without those words |
| Normalizer.IntendedAbbreviatesFullName | text_processing/base.py:22 | with the intended spelling the full name becomes `ОАО` |
| Tika.CapMatches | text_processing/tika_parsing.py:22 | every match reported is a scanner match at its start, and the matches do not overlap and come in order |
| Tika.CapMatchesLeftmost | text_processing/tika_parsing.py:22 | `finditer` skips no match: none starts before the first or between two consecutive ones |
| Tika.CapMatchesAreLongest | text_processing/tika_parsing.py:22-23 | each group is the longest spaced-capitals run at its start |
| Tika.FindFrom | text_processing/tika_parsing.py:24 | the first occurrence at or after the start, and no earlier one |
| Tika.ReplaceFirst | text_processing/tika_parsing.py:24 | `str.replace(pat, repl, 1)` replaces exactly the first occurrence, and returns the text unchanged without one |
| Tika.ReplaceFirstKeepsNonSpace | text_processing/tika_parsing.py:24 | replacing a group by its blank-free form keeps the non-whitespace characters |
| Tika.TikaFixCapSpaces | text_processing/tika_parsing.py:21-25 | only whitespace changes, and a text without spaced capitals is unchanged |
| Tika.TikaRemoveNumbers | text_processing/tika_parsing.py:33-36 | a text never mentioning "руб" is unchanged |
| Tika.TikaMoneyPrefersKopecks | text_processing/tika_parsing.py:34 | where the kopecks follow an amount they are replaced with it, by the longest match; an amount alone is still replaced |
| Tika.Parse | text_processing/tika_parsing.py:39-51 | `None` exactly when the document could not be read; otherwise the content is stripped; a text with no "кодекс", no spaced capitals, no line break to join and no "руб" comes back only stripped |
| Tokenizer.Lookup | recommenders/models.py:12-20 | a hit returns the stored value and leaves the memo; a miss computes the stem, stores it and returns it; a consistent memo stays consistent |
| Tokenizer.Kept | recommenders/models.py:31 | the kept tokens are input tokens that are not stop words |
| Tokenizer.KeptAppend | recommenders/models.py:31 | filtering keeps token order: it distributes over concatenation |
| Tokenizer.Tokenize | recommenders/models.py:29-31 | the tokens are the stems of the non-stop-word tokens, in order, given a memo that agrees with the stemmer; the memo keeps agreeing, keeps every old entry and only grows |
| Tokenizer.LsiVectorize | recommenders/lsi.py:60-67 | one bag of words per document, in order, over a dictionary built from every document's tokens with `no_below=10, no_above=0.66` |
| Ranking.Argsort | recommenders/models.py:66 | a permutation of the indices with scores in non-increasing order |
| Ranking.SimilarIds | recommenders/models.py:63-66 | all indices but one, distinct, in non-increasing score order |
| Ranking.DroppedIsBest | recommenders/models.py:66 | the one index left out has the top score, and every other index is listed |
| Corpus.Init | recommenders/util.py:16-18 | the class's own assignments before the gensim constructor runs: the limit is stored and both caches and the length are unset |
| Corpus.Take | recommenders/util.py:24 | `islice(stream, limit)`: the first `limit` items, or all of them |
| Corpus.GetStream | recommenders/util.py:22-28 | reads and remembers the prefix unless a non-empty list is remembered; sets `length` to `limit` when it was unset |
| Corpus.GetStreamStable | recommenders/util.py:22-28 | once a non-empty list is remembered, later calls return it without reading |
| Corpus.EmptyIsReread | recommenders/util.py:23 | an empty remembered list counts as nothing: the next call reads again |
| Corpus.LengthIsLimit | recommenders/util.py:24-27 | on a fresh corpus whose stream is longer than the limit, exactly the first `limit` documents are read and remembered, and `length` becomes the limit |
| Corpus.GetTexts | recommenders/util.py:30-33 | texts are remembered on the first call and served from memory afterwards |
| Corpus.PyIndex | recommenders/util.py:36 | Python indexing: negative positions from the end, out of range an error |
| Corpus.GetItem | recommenders/util.py:35-36 | `corpus[i]` indexes the remembered texts |
| Corpus.GetItemRemembered | recommenders/util.py:35-36 | after the texts are remembered, indexing reads them even if the directory changed |
| ShardPath.Shard | arbitr_crawler/arbitr_crawler/spiders/simple_download_spider.py:9 | `case_id[:2]`: a prefix of the id, of length two or the whole id when shorter |
| ShardPath.GetPath | arbitr_crawler/arbitr_crawler/spiders/simple_download_spider.py:8-9 | the path is the root, the shard, a slash, the id and `.html`, each at its place |
| ShardPath.CaseIdFromPath | arbitr_crawler/arbitr_crawler/spiders/simple_download_spider.py:8-9 | a path is decoded only to an id that `get_path` maps back to that path |
| ShardPath.RoundTrip | arbitr_crawler/arbitr_crawler/spiders/simple_download_spider.py:8-9 | every path `get_path` builds decodes back to its case id |
| ShardPath.Injective | arbitr_crawler/arbitr_crawler/spiders/simple_download_spider.py:8-9 | different case ids are stored in different files |
| ShardPath.DocPath | arbitr_crawler/arbitr_crawler/spiders/simple_download_spider.py:9 | a document has a path exactly when it has a `case_id`, and the path names that id |
| Evaluation.AddRating | recommenders/evaluation.py:20-23 | one rating sets its own pair, sets the reverse pair only if that was empty, and touches nothing else |
| Evaluation.BuildIsExpected | recommenders/evaluation.py:19-23 | each cell holds the last rating of its pair, else the first rating of the reverse pair, else nothing |
| Evaluation.BuildRows | recommenders/evaluation.py:19-23 | rows exist exactly for the ids some rating mentions |
| Evaluation.RatedPairsHold | recommenders/evaluation.py:21 | under the database's uniqueness of `(doc_id, recommendation_id)`, every rated pair holds its own rating |
| Evaluation.CutOff | recommenders/evaluation.py:26-28 | exactly the rows with at least `cut_off` entries remain, unchanged |
| Evaluation.NewEvaluator | recommenders/evaluation.py:17-28 | every remaining row has at least `cut_off` entries and holds the reference contents |
| Evaluation.Known | recommenders/evaluation.py:43 | every kept id is judged (non-zero, negative included) and every judged id is kept; all of them when every one is judged |
| Evaluation.KnownAppend | recommenders/evaluation.py:43 | the filter keeps the order: filtering a concatenation filters each part |
| Evaluation.RelevantKnown | recommenders/evaluation.py:43 | dropping unjudged recommendations keeps every relevant one |
| Evaluation.Precision | recommenders/evaluation.py:40-44 | NaN exactly for an empty list; otherwise in `[0, 1]` and 0 exactly when nothing is relevant |
| Evaluation.KValues | recommenders/evaluation.py:48-51 | the `k` values lie in `1 .. len-1`; in known mode exactly the `k` whose item `recs[k-1]` is judged remain; otherwise all of them |
| Evaluation.ApTerm | recommenders/evaluation.py:53-55 | a term lies in `[0, 1]` and is 0 exactly when the `k`-th item is not relevant |
| Evaluation.SumTerms | recommenders/evaluation.py:55 | the sum of the terms is 0 exactly when none of the items at the `k` values is relevant |
| Evaluation.AveragePrecision | recommenders/evaluation.py:46-55 | NaN exactly when there are no `k` values (in full mode: one recommendation or none); otherwise in `[0, 1]`, and 0 exactly when no recommendation before the last is relevant, in both modes |
| Evaluation.KnownApUnfilteredPrefix | recommenders/evaluation.py:49-53 | in known mode `P@k` is still taken over the unfiltered prefix `recs[:k]`: for `[u, x, y]` with `u` unjudged and `x` relevant the average precision is 0.5 |
| Evaluation.LastIgnored | recommenders/evaluation.py:48 | the last recommendation never influences the average precision |
| Evaluation.AllJudged | recommenders/evaluation.py:49-51 | when every recommendation is judged, the known mode gives the same precision and average precision |
| Evaluation.Dcg | recommenders/evaluation.py:57-61 | between 0 and the number of relevant recommendations, and 0 exactly when none is relevant |
| Evaluation.DcgSingle | recommenders/evaluation.py:61 | a single relevant recommendation scores 1 |
| Evaluation.KnownDcgRenumbers | recommenders/evaluation.py:59-61 | in known mode the DCG filters before numbering positions: `[u, x]` with `u` unjudged and `x` relevant scores 1, against the second position's discount in full mode |
| Evaluation.MeanDefined | recommenders/evaluation.py:68 | NaN exactly when every value is NaN; otherwise the mean stays within the values' bounds |
| Evaluation.MeanDefinedSkipsNone | recommenders/evaluation.py:68 | a NaN anywhere does not change the NaN-filtered mean |
| Evaluation.MeanAll | recommenders/evaluation.py:72-74 | `np.average`: NaN as soon as one value is NaN or there are none; otherwise the plain mean |
| Evaluation.PerDoc | recommenders/evaluation.py:65-66 | one metric value per remaining row, in row order, from the model's top 20 for that row's document |
| Evaluation.MeanPrecisionAtK | recommenders/evaluation.py:63-68 | the mean precision lies in `[0, 1]` |
| Evaluation.MapScore | recommenders/evaluation.py:70-74 | the mean average precision lies in `[0, 1]` |
| Evaluation.MapScoreKnown | recommenders/evaluation.py:76-82 | the known-only mean average precision lies in `[0, 1]` |
| Evaluation.MeanDcg | recommenders/evaluation.py:84-89 | NaN exactly when no row is left; never negative |
| Evaluation.NamesDistinct | recommenders/evaluation.py:31-37 | the six scores are reported under six different keys |
| Evaluation.Evaluate | recommenders/evaluation.py:30-38 | all six keys are present; the precision scores lie in `[0, 1]`; the DCG scores are non-negative and defined exactly when some row is left |

## Left out

- `ModelBase.vectorize` (`recommenders/models.py:33-36`) is not modelled. It returns the corpus's own dictionary and the corpus unchanged, a projection with no property beyond its definition.
- Corpus.Init: models only the assignments at `recommenders/util.py:16-18`. The gensim constructor called at `util.py:19-20` builds a dictionary when none is given, which reads the texts through this class's own `getstream`. A freshly constructed corpus has then already filled both caches and may have set `length`. The gensim constructor is foreign code.
- Corpus.GetStream: leaves out gensim's own `getstream` setting `length` to the number of files read when its generator runs to the end. That happens when `limit` is `None` or the directory holds fewer files than the limit, and then `length` is that count rather than `limit`. `Corpus.LengthIsLimit` is stated only for streams longer than the limit.
- Foreign code becomes parameters:
  - the tf-idf analyzer and the Snowball stemmer;
  - gensim's dictionary building, `doc2bow`, TF-IDF, LSI and LDA models and similarity index;
  - the model's `get_similar`.
- Similarities are reals. The model does not compute them.
- `LsiModel.__init__` and `LdaModel.__init__` (`recommenders/models.py:41-61` and `:77-92`) are left out. They train gensim models, time the work and print, which is foreign code and I/O. `get_similar_ids` and `get_similar_for_text` both apply `argsort(-sims)[1:]` to a similarity vector. `Ranking.SimilarIds` models that rule, with the vector as input.
- `enum_orgs` (`text_processing/base.py:65-73`) is left out. It depends on the natasha extractors, and `preprocess` does not call it.
- The natasha extractors and the scikit-learn pipelines are left out as foreign code.
- Tika.Parse: states only the `None` case, the final strip and the identity on a text with nothing to rewrite. The order of the steps, statutes then spaced capitals then line joining then amounts, is carried by its definition and not by a separate property.
- `Tika.Parse` takes the extracted content as an `Option`. Reading the file through Tika, the exception and its message are I/O.
- Module-level scripts are left out because they are I/O:
  - the directory listing of `tika_parsing.py`;
  - the demo in `lsi.py`;
  - `load_corpus2`, `load_lsi` and `load_lda`, which pickle models to disk;
  - the command-line block of `evaluation.py`.
- `Corpus.GetStream` and `Corpus.GetTexts` take gensim's stream and texts as given sequences. Directory walking is left out.
- Character classes are restricted:
  - `\w` covers ASCII letters, digits, `_`, `А-я` and `Ёё`.
  - `\d` covers ASCII digits.
  - Case folding covers Latin letters, `А-Я` and `Ё`.
  - Python's full Unicode tables are left out.
  - The whitespace set is Python's complete `str.isspace` set.
- Python's regex engine in general is left out. Only the patterns of these files are modelled: each is a linear pattern with safe runs, or has its own scanner.
- Floating point is modelled as exact reals.
- The DCG discount `1/log2(i+2)` is a parameter. Only `disc(0) = 1` and `0 < disc(i) <= 1` are assumed.
- numpy's sort is not stable. `Ranking.Argsort` fixes one order among equal scores, and nothing stated depends on that order.
- Reading `test_scores[rec]` on the `defaultdict(int)` rows inserts a zero entry. The model leaves that out. It happens after the cut-off and changes no score.
- The `evaluate` dictionary is keyed by the `Metric` datatype. `Evaluation.Name` gives the string keys.
- `Evaluation.PerDoc` requires every remaining row's document id to index the corpus. Python raises `IndexError` for larger ids and wraps negative ones.
- Statutes.Abbreviate: states only that a text without "кодекс" is untouched. Which names it abbreviates follows from the patterns and the `Pattern` theorems, not from its own contract.
- Normalizer.Preprocess: states only the digit-run property of the output. Each step's own contract covers the rest.
- Tika.TikaFixCapSpaces: states what every replacement preserves, not which occurrence each `str.replace` hits.
- Evaluation.MeanPrecisionAtK: states bounds, not the value of the mean.
- Evaluation.MapScore: states bounds, not the value of the mean.
- Evaluation.MapScoreKnown: states bounds, not the value of the mean.
- Evaluation.Evaluate: states bounds and definedness of each entry, not its value.

## Findings

| source | as written | input that shows it | evidently intended | confidence | as-written member | corrected member |
|---|---|---|---|---|---|---|
| text_processing/base.py:22-25 | the four joint-stock rules spell the Russian word as `акицонерно` | "открытое акционерное общество" comes back unchanged | `акционерно`, so the full name becomes `ОАО` (likewise `ЗАО`, `ПАО`, `АО`) | high; not executed | Normalizer.TypoMissesFullName | Normalizer.IntendedAbbreviatesFullName |
