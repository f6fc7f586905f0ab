/** `TextDirectoryLimitInMemoryCorpus` of `recommenders/util.py`: a directory
    corpus that reads at most `limit` documents once and then serves them from
    memory.

    The underlying gensim stream and gensim's `get_texts` are given sequences.
    The object's fields are an explicit state value, passed in and returned. */
module Corpus {
  import opened Chars

  /** The fields the class adds or sets: `limit`, `length`, `_cache`, `_text_cache`. */
  datatype State<T, X> = State(limit: Option<nat>, length: Option<nat>, cache: Option<seq<T>>, textCache: Option<seq<X>>)

  /** The assignments `__init__` makes before calling the gensim constructor. */
  function Init<T, X>(limit: Option<nat>): (st: State<T, X>)
    ensures st.limit == limit && st.cache.None? && st.textCache.None? && st.length.None?
  {
    State(limit, None, None, None)
  }

  /** Python's `not x` on an optional list: `None` and `[]` are both false. */
  predicate Unset<T>(o: Option<seq<T>>) {
    o.None? || o.value == []
  }

  /** `not self.length`: `None` and `0` are both false. */
  predicate UnsetLength(o: Option<nat>) {
    o.None? || o.value == 0
  }

  /** `itertools.islice(stream, limit)`: the first `limit` items, or all of them. */
  function Take<T>(stream: seq<T>, limit: Option<nat>): (r: seq<T>)
    ensures limit.None? ==> r == stream
    ensures limit.Some? ==> |r| == (if limit.value < |stream| then limit.value else |stream|)
    ensures r == stream[..|r|]
  {
    match limit
    case None => stream
    case Some(n) => if n < |stream| then stream[..n] else stream
  }

  /** `getstream`: read and remember the prefix unless a non-empty list is
      remembered already; set `length` to `limit` when it was unset. */
  function GetStream<T, X>(st: State<T, X>, stream: seq<T>): (r: (seq<T>, State<T, X>))
    ensures Unset(st.cache) ==> r.0 == Take(stream, st.limit) && r.1.cache == Some(r.0)
    ensures !Unset(st.cache) ==> r.0 == st.cache.value && r.1 == st
    ensures r.1.length == if Unset(st.cache) && UnsetLength(st.length) then st.limit else st.length
    ensures r.1.limit == st.limit && r.1.textCache == st.textCache
  {
    if Unset(st.cache) then
      var items := Take(stream, st.limit);
      var length := if UnsetLength(st.length) then st.limit else st.length;
      (items, st.(cache := Some(items), length := length))
    else (st.cache.value, st)
  }

  /** Once a non-empty list is remembered, later calls return it without reading,
      even if the directory has changed. */
  lemma GetStreamStable<T, X>(st: State<T, X>, stream: seq<T>, later: seq<T>)
    requires GetStream(st, stream).0 != []
    ensures GetStream(GetStream(st, stream).1, later) == GetStream(st, stream)
  {
  }

  /** An empty remembered list counts as nothing remembered: the next call reads again. */
  lemma EmptyIsReread<T, X>(st: State<T, X>, stream: seq<T>, later: seq<T>)
    requires GetStream(st, stream).0 == []
    ensures GetStream(GetStream(st, stream).1, later).0 == Take(later, st.limit)
  {
  }

  /** On a fresh corpus whose directory holds more documents than the limit,
      exactly `limit` documents are read and `length` becomes the limit. */
  lemma LengthIsLimit<T, X>(stream: seq<T>, n: nat)
    requires |stream| > n
    ensures var r := GetStream(Init<T, X>(Some(n)), stream);
            r.0 == stream[..n] && r.1.length == Some(n) && r.1.cache == Some(stream[..n])
  {
  }

  /** `get_texts`: the same memo over gensim's texts. */
  function GetTexts<T, X>(st: State<T, X>, texts: seq<X>): (r: (seq<X>, State<T, X>))
    ensures Unset(st.textCache) ==> r.0 == texts && r.1 == st.(textCache := Some(texts))
    ensures !Unset(st.textCache) ==> r.0 == st.textCache.value && r.1 == st
  {
    if Unset(st.textCache) then (texts, st.(textCache := Some(texts))) else (st.textCache.value, st)
  }

  /** Python list indexing: negative positions count from the end; out of range
      is an `IndexError`, here `None`. */
  function PyIndex<X>(l: seq<X>, i: int): (r: Option<X>)
    ensures 0 <= i < |l| ==> r == Some(l[i])
    ensures -|l| <= i < 0 ==> r == Some(l[|l| + i])
    ensures r.None? <==> !(-|l| <= i < |l|)
  {
    if 0 <= i < |l| then Some(l[i])
    else if -|l| <= i < 0 then Some(l[|l| + i])
    else None
  }

  /** `__getitem__`: `get_texts()[item]`. */
  function GetItem<T, X>(st: State<T, X>, texts: seq<X>, i: int): (r: (Option<X>, State<T, X>))
    ensures r.1 == GetTexts(st, texts).1
    ensures r.0 == PyIndex(GetTexts(st, texts).0, i)
  {
    var (l, st') := GetTexts(st, texts);
    (PyIndex(l, i), st')
  }

  /** Item access after the texts are remembered reads the remembered list. */
  lemma GetItemRemembered<T, X>(st: State<T, X>, texts: seq<X>, later: seq<X>, i: int)
    requires texts != []
    ensures GetItem(GetTexts(st, texts).1, later, i).0 == PyIndex(GetTexts(st, texts).0, i)
  {
  }
}
