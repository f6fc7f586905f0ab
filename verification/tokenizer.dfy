/** The tokeniser of the recommenders (`recommenders/models.py` and its copy in
    `recommenders/lsi.py`): analyzer tokens minus five stop words, each mapped
    through a memoised Snowball stemmer.

    The analyzer (`TfidfVectorizer().build_analyzer()`) and the stemmer are
    foreign code and appear as function parameters. The memo, a class-level
    `key_dependent_dict`, is an explicit map threaded through the calls. */
module Tokenizer {

  type Word = seq<char>

  /** `STOP_WORDS`, checked on the surface form before stemming. */
  const StopWords: set<Word> := {"от", "на", "не", "рф", "ст"}

  /** Every stored stem is the stem of its key. */
  predicate Consistent(memo: map<Word, Word>, stem: Word -> Word) {
    forall w :: w in memo ==> memo[w] == stem(w)
  }

  /** `key_dependent_dict.__getitem__`: a hit returns the stored value; a miss
      (`__missing__`) computes `f(key)`, stores it and returns it. */
  function Lookup(memo: map<Word, Word>, stem: Word -> Word, key: Word): (r: (Word, map<Word, Word>))
    ensures key in memo ==> r.0 == memo[key] && r.1 == memo
    ensures key !in memo ==> r.0 == stem(key) && r.1 == memo[key := r.0]
    ensures r.1.Keys == memo.Keys + {key} && r.1[key] == r.0
    ensures forall w :: w in memo ==> r.1[w] == memo[w]
    ensures Consistent(memo, stem) ==> Consistent(r.1, stem) && r.0 == stem(key)
  {
    if key in memo then (memo[key], memo)
    else
      var v := stem(key);
      (v, memo[key := v])
  }

  /** The tokens `tokenize` keeps, in order. */
  function Kept(words: seq<Word>): (r: seq<Word>)
    ensures |r| <= |words|
    ensures forall i :: 0 <= i < |r| ==> r[i] !in StopWords && r[i] in words
  {
    if |words| == 0 then []
    else if words[0] in StopWords then Kept(words[1..])
    else [words[0]] + Kept(words[1..])
  }

  /** `tokenize` without the memo: the stems of the kept tokens. */
  function Stems(words: seq<Word>, stem: Word -> Word): (r: seq<Word>)
    ensures |r| == |Kept(words)|
    ensures forall i :: 0 <= i < |r| ==> r[i] == stem(Kept(words)[i])
  {
    seq(|Kept(words)|, i requires 0 <= i < |Kept(words)| => stem(Kept(words)[i]))
  }

  /** Filtering distributes over concatenation: tokens keep their order. */
  lemma {:induction false} KeptAppend(a: seq<Word>, b: seq<Word>)
    ensures Kept(a + b) == Kept(a) + Kept(b)
  {
    if |a| > 0 {
      assert (a + b)[1..] == a[1..] + b;
      KeptAppend(a[1..], b);
    } else {
      assert a + b == b;
    }
  }

  /** A single token is kept exactly when it is not a stop word. */
  lemma KeptOne(w: Word)
    ensures Kept([w]) == if w in StopWords then [] else [w]
  {
    assert [w][1..] == [];
  }

  /** `tokenize`: the list comprehension over the analyzer's tokens, reading the
      memo. With a consistent memo the tokens are those of `Stems`, whatever
      earlier calls stored, and the memo stays consistent and only grows. */
  method Tokenize(analyzer: seq<char> -> seq<Word>, stem: Word -> Word, memo: map<Word, Word>, doc: seq<char>)
    returns (tokens: seq<Word>, memo': map<Word, Word>)
    requires Consistent(memo, stem)
    ensures tokens == Stems(analyzer(doc), stem)
    ensures Consistent(memo', stem) && memo.Keys <= memo'.Keys
    ensures forall w :: w in memo ==> memo'[w] == memo[w]
  {
    var words := analyzer(doc);
    tokens, memo' := [], memo;
    var i := 0;
    while i < |words|
      invariant 0 <= i <= |words|
      invariant Consistent(memo', stem) && memo.Keys <= memo'.Keys
      invariant forall w :: w in memo ==> memo'[w] == memo[w]
      invariant tokens == Stems(words[..i], stem)
    {
      var w := words[i];
      KeptAppend(words[..i], [w]);
      KeptOne(w);
      assert words[..i + 1] == words[..i] + [w];
      if w !in StopWords {
        var hit := Lookup(memo', stem, w);
        memo' := hit.1;
        tokens := tokens + [hit.0];
      }
      i := i + 1;
    }
    assert words[..i] == words;
  }

  /** `filter_extremes(no_below=10, no_above=0.66)`: drop words in fewer than 10
      documents or in more than 66% of them. */
  datatype Pruning = Pruning(noBelow: nat, noAbove: real)
  const LsiPruning: Pruning := Pruning(10, 0.66)

  /** `vectorize` of `lsi.py`: every document is tokenised, a dictionary is built
      from all of them and pruned (`build`, foreign), and each document becomes a
      bag of words over it (`doc2bow`, foreign). One bag per document, in order. */
  function LsiVectorize<D, B>(docs: seq<seq<char>>, analyzer: seq<char> -> seq<Word>, stem: Word -> Word,
                              build: (seq<seq<Word>>, Pruning) -> D, doc2bow: (D, seq<Word>) -> B): (r: (D, seq<B>))
    ensures |r.1| == |docs|
    ensures forall i :: 0 <= i < |docs| ==> r.1[i] == doc2bow(r.0, Stems(analyzer(docs[i]), stem))
    ensures exists tokenized: seq<seq<Word>> :: |tokenized| == |docs|
              && (forall i :: 0 <= i < |docs| ==> tokenized[i] == Stems(analyzer(docs[i]), stem))
              && r.0 == build(tokenized, Pruning(10, 0.66))
  {
    var tokenized := seq(|docs|, i requires 0 <= i < |docs| => Stems(analyzer(docs[i]), stem));
    var dictionary := build(tokenized, LsiPruning);
    assert |tokenized| == |docs| && dictionary == build(tokenized, Pruning(10, 0.66));
    (dictionary, seq(|docs|, i requires 0 <= i < |docs| => doc2bow(dictionary, tokenized[i])))
  }
}
