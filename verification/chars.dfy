/** Characters, the character classes the normaliser's regular expressions use,
    case folding, maximal runs and `str.strip`.

    Text is `seq<char>`. Python's `\s` and `str.isspace` are the same Unicode
    whitespace set, spelled out in `IsSpace`. `\d` is restricted to ASCII digits,
    and `\w` to ASCII letters and digits, `_` and the Russian alphabet. */
module Chars {

  datatype Option<+T> = None | Some(value: T)

  /** Python's whitespace: `\s` in a `str` pattern and `str.isspace()`. */
  predicate IsSpace(c: char) {
    || c == ' ' || c == '\t' || c == '\n' || c == '\r' || c == '\U{000B}' || c == '\U{000C}'
    || ('\U{001C}' <= c <= '\U{001F}') || c == '\U{0085}' || c == '\U{00A0}' || c == '\U{1680}'
    || ('\U{2000}' <= c <= '\U{200A}') || c == '\U{2028}' || c == '\U{2029}' || c == '\U{202F}'
    || c == '\U{205F}' || c == '\U{3000}'
  }

  predicate IsDigit(c: char) { '0' <= c <= '9' }

  predicate IsLowerCyr(c: char) { 'а' <= c <= 'я' }

  predicate IsUpperCyr(c: char) { 'А' <= c <= 'Я' }

  /** `\w`: letters, digits and the underscore. */
  predicate IsWord(c: char) {
    || ('a' <= c <= 'z') || ('A' <= c <= 'Z') || IsDigit(c) || c == '_'
    || IsLowerCyr(c) || IsUpperCyr(c) || c == 'ё' || c == 'Ё'
  }

  /** Lower-case folding as `re.IGNORECASE` applies it to the letters above. */
  function Fold(c: char): char {
    if IsUpperCyr(c) || ('A' <= c <= 'Z') then (c as int + 32) as char
    else if c == 'Ё' then 'ё'
    else c
  }

  /** A character of the text matches a pattern letter under `re.IGNORECASE`. */
  predicate EqCI(c: char, letter: char) { Fold(c) == Fold(letter) }

  /** Every character that `EqCI` accepts for a letter is the letter itself or one
      of its two case forms; the pattern checks below rely on this. */
  lemma EqCIForms(c: char, letter: char)
    requires EqCI(c, letter)
    ensures c == letter || c == Fold(letter) || c == Unfold(letter)
  {
  }

  /** The upper-case form of a folded letter (identity elsewhere). */
  function Unfold(c: char): char {
    var f := Fold(c);
    if IsLowerCyr(f) || ('a' <= f <= 'z') then (f as int - 32) as char
    else if f == 'ё' then 'Ё'
    else f
  }

  /** The character classes of the normaliser's regular expressions. */
  datatype Class =
    | Space                 // \s
    | Digit                 // \d
    | Word                  // \w
    | CyrAnyCase            // [а-я] or [А-Я] under re.IGNORECASE
    | CyrLower              // [а-я], case-sensitive
    | CyrUpper              // [А-Я], case-sensitive
    | DigitOrSpace          // [\d\s]
    | DigitOrBlank          // [\d ]
    | SpaceOrDash           // [\s\-]
    | CommaOrDot            // [,.]
    | NotNewline            // . without re.DOTALL
    | NotCloseQuoteOrDigit  // [^»0-9]
    | LineJoinLead          // [а-яА-Я,"«»()0-9]

  predicate In(cls: Class, c: char) {
    match cls
    case Space => IsSpace(c)
    case Digit => IsDigit(c)
    case Word => IsWord(c)
    case CyrAnyCase => IsLowerCyr(c) || IsUpperCyr(c)
    case CyrLower => IsLowerCyr(c)
    case CyrUpper => IsUpperCyr(c)
    case DigitOrSpace => IsDigit(c) || IsSpace(c)
    case DigitOrBlank => IsDigit(c) || c == ' '
    case SpaceOrDash => IsSpace(c) || c == '-'
    case CommaOrDot => c == ',' || c == '.'
    case NotNewline => c != '\n'
    case NotCloseQuoteOrDigit => c != '»' && !IsDigit(c)
    case LineJoinLead =>
      IsLowerCyr(c) || IsUpperCyr(c) || IsDigit(c)
      || c == ',' || c == '"' || c == '«' || c == '»' || c == '(' || c == ')'
  }

  /** Every character of `s[a..b]` belongs to `cls`. */
  predicate All(s: seq<char>, a: int, b: int, cls: Class) {
    0 <= a <= b <= |s| && forall k :: a <= k < b ==> In(cls, s[k])
  }

  /** End of the maximal run of `cls` characters starting at `i`: what a greedy
      `cls*` consumes when nothing after it can take the run back. */
  function Span(s: seq<char>, i: nat, cls: Class): (e: nat)
    requires i <= |s|
    ensures i <= e <= |s|
    ensures All(s, i, e, cls)
    ensures e == |s| || !In(cls, s[e])
    decreases |s| - i
  {
    if i < |s| && In(cls, s[i]) then Span(s, i + 1, cls) else i
  }

  /** A run of `cls` from `a` never reaches past `Span`, and a run that stops at a
      character outside `cls` is exactly `Span`. */
  lemma SpanBounds(s: seq<char>, a: nat, b: nat, cls: Class)
    requires All(s, a, b, cls)
    ensures b <= Span(s, a, cls)
    ensures b < |s| && !In(cls, s[b]) ==> b == Span(s, a, cls)
  {
  }

  /** The result of `str.strip()` is stripped: empty, or neither end is whitespace. */
  predicate Stripped(t: seq<char>) {
    |t| == 0 || (!IsSpace(t[0]) && !IsSpace(t[|t| - 1]))
  }

  /** Start of the run of whitespace that ends at `j`. */
  function TrailStart(s: seq<char>, j: nat): (k: nat)
    requires j <= |s|
    ensures k <= j && All(s, k, j, Space)
    ensures k == 0 || !IsSpace(s[k - 1])
  {
    if j > 0 && IsSpace(s[j - 1]) then TrailStart(s, j - 1) else j
  }

  /** `str.strip()`: drops leading and trailing whitespace and nothing else. */
  function Strip(s: seq<char>): (r: seq<char>)
    ensures Stripped(r)
    ensures exists a, b :: 0 <= a <= b <= |s| && r == s[a..b] && All(s, 0, a, Space) && All(s, b, |s|, Space)
  {
    var a := Span(s, 0, Space);
    if a == |s| then
      assert s[a..a] == [];
      []
    else
      var b := TrailStart(s, |s|);
      s[a..b]
  }

  /** Stripping a stripped text changes nothing; in particular `Strip` is idempotent. */
  lemma StripStripped(t: seq<char>)
    requires Stripped(t)
    ensures Strip(t) == t
  {
    if |t| > 0 {
      assert Span(t, 0, Space) == 0;
      assert TrailStart(t, |t|) == |t|;
    }
  }

  lemma StripIdempotent(s: seq<char>)
    ensures Strip(Strip(s)) == Strip(s)
  {
    StripStripped(Strip(s));
  }

  /** The text with every whitespace character deleted: what the whitespace
      rewrites of the normaliser must keep intact. */
  function NonSpace(s: seq<char>): (r: seq<char>)
    ensures |r| <= |s|
    ensures forall k :: 0 <= k < |r| ==> !IsSpace(r[k])
  {
    if |s| == 0 then []
    else if IsSpace(s[0]) then NonSpace(s[1..])
    else [s[0]] + NonSpace(s[1..])
  }

  lemma {:induction false} NonSpaceConcat(a: seq<char>, b: seq<char>)
    ensures NonSpace(a + b) == NonSpace(a) + NonSpace(b)
  {
    if |a| == 0 {
      assert a + b == b;
    } else {
      assert (a + b)[1..] == a[1..] + b;
      NonSpaceConcat(a[1..], b);
    }
  }

  lemma {:induction false} NonSpaceAllSpace(s: seq<char>, a: nat, b: nat)
    requires All(s, a, b, Space)
    ensures NonSpace(s[a..b]) == []
    decreases b - a
  {
    if a < b {
      assert s[a..b][1..] == s[a + 1..b];
      NonSpaceAllSpace(s, a + 1, b);
    }
  }

  /** Texts with equal non-whitespace parts, joined, still have equal non-whitespace parts. */
  lemma NonSpaceCongruent(a: seq<char>, b: seq<char>, c: seq<char>, d: seq<char>)
    requires NonSpace(a) == NonSpace(c) && NonSpace(b) == NonSpace(d)
    ensures NonSpace(a + b) == NonSpace(c + d)
  {
    NonSpaceConcat(a, b);
    NonSpaceConcat(c, d);
  }

  /** A text built from a part for `s[p..j]` and a part for `s[j..]`, each with
      the same non-whitespace characters, has those of `s[p..]`. */
  lemma NonSpaceSplit(x: seq<char>, r: seq<char>, y: seq<char>, s: seq<char>, p: nat, j: nat)
    requires p <= j <= |s| && x == r + y
    requires NonSpace(r) == NonSpace(s[p..j]) && NonSpace(y) == NonSpace(s[j..])
    ensures NonSpace(x) == NonSpace(s[p..])
  {
    assert s[p..] == s[p..j] + s[j..];
    NonSpaceCongruent(r, y, s[p..j], s[j..]);
  }

  /** `str.strip()` removes whitespace only. */
  lemma StripKeepsNonSpace(s: seq<char>)
    ensures NonSpace(Strip(s)) == NonSpace(s)
  {
    var a := Span(s, 0, Space);
    NonSpaceAllSpace(s, 0, a);
    if a == |s| {
      assert s == s[0..a];
    } else {
      var b := TrailStart(s, |s|);
      var t := s[a..b];
      NonSpaceAllSpace(s, b, |s|);
      assert s[b..] == s[b..|s|];
      assert t == t + [];
      NonSpaceSplit(t, t, [], s, a, b);
      assert t == [] + t;
      NonSpaceSplit(t, [], t, s, 0, a);
      assert s[0..] == s;
    }
  }

  /** `str.replace(' ', '')`: deletes the blank character only. */
  function RemoveBlanks(s: seq<char>): (r: seq<char>)
    ensures |r| <= |s|
    ensures forall k :: 0 <= k < |r| ==> r[k] != ' '
  {
    if |s| == 0 then []
    else if s[0] == ' ' then RemoveBlanks(s[1..])
    else [s[0]] + RemoveBlanks(s[1..])
  }

  lemma {:induction false} RemoveBlanksConcat(a: seq<char>, b: seq<char>)
    ensures RemoveBlanks(a + b) == RemoveBlanks(a) + RemoveBlanks(b)
  {
    if |a| == 0 {
      assert a + b == b;
    } else {
      assert (a + b)[1..] == a[1..] + b;
      RemoveBlanksConcat(a[1..], b);
    }
  }

  /** Deleting blanks first does not change what deleting all whitespace gives. */
  lemma {:induction false} NonSpaceRemoveBlanks(s: seq<char>)
    ensures NonSpace(RemoveBlanks(s)) == NonSpace(s)
  {
    if |s| > 0 {
      NonSpaceRemoveBlanks(s[1..]);
      if s[0] != ' ' {
        assert ([s[0]] + RemoveBlanks(s[1..]))[1..] == RemoveBlanks(s[1..]);
      }
    }
  }

  /** Deleting blanks twice is deleting them once. */
  lemma {:induction false} RemoveBlanksIdempotent(s: seq<char>)
    ensures RemoveBlanks(RemoveBlanks(s)) == RemoveBlanks(s)
  {
    if |s| > 0 {
      RemoveBlanksIdempotent(s[1..]);
      if s[0] != ' ' {
        assert ([s[0]] + RemoveBlanks(s[1..]))[1..] == RemoveBlanks(s[1..]);
      }
    }
  }
}
