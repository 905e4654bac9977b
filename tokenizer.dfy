/**
 * The punctuation-aware tokenizer of the evaluation script
 * (`tokenizer` in nl_gen/evaluation.py): strip the sentence, split it at
 * runs of whitespace, split every fragment around the punctuation characters
 * `. , ! ? " ' : ; ) (` (kept as pieces of their own, as `re.split` does with
 * a capturing group) and drop the empty pieces.
 */
module Tokenizer {
  import opened Common

  /** Python's `str.isspace` for one character (the set `strip` and `split` use). */
  predicate IsSpace(c: char) {
    c == ' ' || '\t' <= c <= '\r' || '\U{1C}' <= c <= '\U{1F}' ||
    c == '\U{85}' || c == '\U{A0}' || c == '\U{1680}' || '\U{2000}' <= c <= '\U{200A}' ||
    c == '\U{2028}' || c == '\U{2029}' || c == '\U{202F}' || c == '\U{205F}' || c == '\U{3000}'
  }

  /** The character class of the splitting pattern. */
  predicate IsPunct(c: char) {
    c == '.' || c == ',' || c == '!' || c == '?' || c == '"' ||
    c == '\'' || c == ':' || c == ';' || c == ')' || c == '('
  }

  predicate AllSpace(s: string) {
    forall i :: 0 <= i < |s| ==> IsSpace(s[i])
  }

  predicate NoSpace(s: string) {
    forall i :: 0 <= i < |s| ==> !IsSpace(s[i])
  }

  predicate NoPunct(s: string) {
    forall i :: 0 <= i < |s| ==> !IsPunct(s[i])
  }

  /** A piece that is one punctuation character. */
  predicate IsPunctToken(w: string) {
    |w| == 1 && IsPunct(w[0])
  }

  /** What every returned token looks like. */
  predicate TokenShaped(w: string) {
    |w| > 0 && NoSpace(w) && (IsPunctToken(w) || NoPunct(w))
  }

  /** The number of whitespace characters `s.lstrip()` removes. */
  function LeadingSpace(s: string): (n: nat)
    ensures n <= |s| && AllSpace(s[..n])
    ensures n < |s| ==> !IsSpace(s[n])
  {
    if s == [] || !IsSpace(s[0]) then 0 else 1 + LeadingSpace(s[1..])
  }

  /** The number of whitespace characters `s.rstrip()` removes. */
  function TrailingSpace(s: string): (n: nat)
    ensures n <= |s| && forall i :: |s| - n <= i < |s| ==> IsSpace(s[i])
    ensures n < |s| ==> !IsSpace(s[|s| - n - 1])
  {
    if s == [] || !IsSpace(s[|s| - 1]) then 0 else 1 + TrailingSpace(s[..|s| - 1])
  }

  /** `s.strip()`: the result neither starts nor ends with whitespace. */
  function Strip(s: string): (r: string)
    ensures r != [] ==> !IsSpace(r[0]) && !IsSpace(r[|r| - 1])
  {
    var t := s[LeadingSpace(s)..];
    t[..|t| - TrailingSpace(t)]
  }

  /** The length of the run of non-whitespace characters that starts `s`. */
  function WordLength(s: string): (n: nat)
    ensures n <= |s| && NoSpace(s[..n])
    ensures n < |s| ==> IsSpace(s[n])
  {
    if s == [] || IsSpace(s[0]) then 0 else 1 + WordLength(s[1..])
  }

  /** `s.split()`: the maximal runs of non-whitespace characters, in order. */
  function Split(s: string): seq<string>
    decreases |s|
  {
    if s == [] then []
    else if IsSpace(s[0]) then Split(s[1..])
    else
      var n := WordLength(s);
      [s[..n]] + Split(s[n..])
  }

  /** Every word `split` returns is non-empty and free of whitespace. */
  lemma {:induction false} SplitWords(s: string)
    ensures forall k :: 0 <= k < |Split(s)| ==> |Split(s)[k]| > 0 && NoSpace(Split(s)[k])
    decreases |s|
  {
    if s != [] {
      if IsSpace(s[0]) {
        SplitWords(s[1..]);
      } else {
        var n := WordLength(s);
        SplitWords(s[n..]);
        var words := [s[..n]] + Split(s[n..]);
        assert Split(s) == words;
        assert forall k :: 1 <= k < |words| ==> words[k] == Split(s[n..])[k - 1];
      }
    }
  }

  /** The index of the first punctuation character of `f`, or `|f|`. */
  function PunctIndex(f: string): (n: nat)
    ensures n <= |f| && NoPunct(f[..n])
    ensures n < |f| ==> IsPunct(f[n])
  {
    if f == [] || IsPunct(f[0]) then 0 else 1 + PunctIndex(f[1..])
  }

  /** `re.split(_WORD_SPLIT, f)`. */
  function RegexSplit(f: string): seq<string>
    decreases |f|
  {
    var n := PunctIndex(f);
    if n == |f| then [f] else [f[..n], [f[n]]] + RegexSplit(f[n + 1..])
  }

  /** `re.split` with a capturing group returns an odd number of pieces. */
  lemma {:induction false} RegexSplitOdd(f: string)
    ensures |RegexSplit(f)| % 2 == 1
    decreases |f|
  {
    var n := PunctIndex(f);
    if n < |f| {
      RegexSplitOdd(f[n + 1..]);
      assert RegexSplit(f) == [f[..n], [f[n]]] + RegexSplit(f[n + 1..]);
      assert |RegexSplit(f)| == |RegexSplit(f[n + 1..])| + 2;
    }
  }

  /**
   * The (possibly empty) runs between punctuation characters sit at the even
   * positions and the punctuation characters themselves at the odd ones.
   */
  lemma {:induction false} RegexSplitAlternates(f: string)
    ensures forall k :: 0 <= k < |RegexSplit(f)| ==>
      if k % 2 == 0 then NoPunct(RegexSplit(f)[k]) else IsPunctToken(RegexSplit(f)[k])
    decreases |f|
  {
    var n := PunctIndex(f);
    if n < |f| {
      var rest := RegexSplit(f[n + 1..]);
      RegexSplitAlternates(f[n + 1..]);
      var pieces := [f[..n], [f[n]]] + rest;
      assert RegexSplit(f) == pieces;
      forall k | 2 <= k < |pieces|
        ensures pieces[k] == rest[k - 2] && (k % 2 == 0 <==> (k - 2) % 2 == 0)
      {
      }
    }
  }

  /** The pieces of a whitespace-free fragment are whitespace-free. */
  lemma {:induction false} RegexSplitKeepsNoSpace(f: string)
    requires NoSpace(f)
    ensures forall k :: 0 <= k < |RegexSplit(f)| ==> NoSpace(RegexSplit(f)[k])
    decreases |f|
  {
    var n := PunctIndex(f);
    if n < |f| {
      var rest := RegexSplit(f[n + 1..]);
      assert NoSpace(f[n + 1..]) && NoSpace(f[..n]) && NoSpace([f[n]]);
      RegexSplitKeepsNoSpace(f[n + 1..]);
      var pieces := [f[..n], [f[n]]] + rest;
      assert RegexSplit(f) == pieces;
      assert forall k :: 2 <= k < |pieces| ==> pieces[k] == rest[k - 2];
    }
  }

  /** The `words` list after the `extend` for each of `fragments`. */
  function RegexSplitAll(fragments: seq<string>): seq<string> {
    if fragments == [] then []
    else RegexSplitAll(fragments[..|fragments| - 1]) + RegexSplit(fragments[|fragments| - 1])
  }

  /** `[w for w in words if w]`. */
  function NonEmpty(words: seq<string>): seq<string> {
    if words == [] then []
    else
      var last := words[|words| - 1];
      NonEmpty(words[..|words| - 1]) + (if last == [] then [] else [last])
  }

  /** Which of `words` are non-empty. */
  function Filled(words: seq<string>): (bits: seq<bool>)
    ensures |bits| == |words|
  {
    seq(|words|, i requires 0 <= i < |words| => words[i] != [])
  }

  /**
   * The filter keeps the non-empty words, and only them, in their order and
   * with their repeats: entry `k` of the result is the `k`-th non-empty word.
   */
  lemma {:induction false} NonEmptyKeepsOrder(words: seq<string>)
    ensures var ix := Where(Filled(words));
      |NonEmpty(words)| == |ix| &&
      forall k :: 0 <= k < |ix| ==> 0 <= ix[k] < |words| && NonEmpty(words)[k] == words[ix[k]]
  {
    WhereIndices(Filled(words));
    if words != [] {
      var init := words[..|words| - 1];
      NonEmptyKeepsOrder(init);
      assert Filled(words)[..|words| - 1] == Filled(init);
    }
  }

  /** The filter keeps exactly the non-empty words. */
  lemma {:induction false} NonEmptyMembers(words: seq<string>)
    ensures forall w :: w in NonEmpty(words) <==> w in words && w != []
  {
    if words != [] {
      var init := words[..|words| - 1];
      NonEmptyMembers(init);
      assert words == init + [words[|words| - 1]];
    }
  }

  /** Filtering a concatenation filters each part. */
  lemma {:induction false} NonEmptyAppend(x: seq<string>, y: seq<string>)
    ensures NonEmpty(x + y) == NonEmpty(x) + NonEmpty(y)
    decreases |y|
  {
    if y == [] {
      assert x + y == x;
    } else {
      var init := y[..|y| - 1];
      assert (x + y)[..|x + y| - 1] == x + init;
      assert (x + y)[|x + y| - 1] == y[|y| - 1];
      NonEmptyAppend(x, init);
    }
  }

  /** The returned tokens of `tokenizer(sentence)`. */
  function Tokens(sentence: string): seq<string> {
    NonEmpty(RegexSplitAll(Split(Strip(sentence))))
  }

  /** Python's `tokenizer`, with its `words` list extended fragment by fragment. */
  method Tokenize(sentence: string) returns (tokens: seq<string>)
    ensures tokens == Tokens(sentence)
    ensures forall k :: 0 <= k < |tokens| ==> TokenShaped(tokens[k])
    ensures Concat(tokens) == RemoveSpaces(sentence)
    ensures PunctTokenCount(tokens) == CountPunct(sentence)
  {
    var words: seq<string> := [];
    var fragments := Split(Strip(sentence));
    for i := 0 to |fragments|
      invariant words == RegexSplitAll(fragments[..i])
    {
      assert fragments[..i + 1][..i] == fragments[..i];
      words := words + RegexSplit(fragments[i]);
    }
    assert fragments[..|fragments|] == fragments;
    tokens := NonEmpty(words);
    TokensShaped(sentence);
    TokensKeepAllCharacters(sentence);
    PunctuationTokenCount(sentence);
  }

  // ---------------------------------------------------------------------
  // Concatenation, whitespace removal and counting

  /** All the characters of `words`, in order. */
  function Concat(words: seq<string>): string {
    if words == [] then [] else words[0] + Concat(words[1..])
  }

  /** `s` with every whitespace character removed. */
  function RemoveSpaces(s: string): string {
    if s == [] then [] else (if IsSpace(s[0]) then [] else [s[0]]) + RemoveSpaces(s[1..])
  }

  /** The number of punctuation characters in `s`. */
  function CountPunct(s: string): nat {
    if s == [] then 0 else (if IsPunct(s[0]) then 1 else 0) + CountPunct(s[1..])
  }

  /** The number of one-character punctuation tokens in `words`. */
  function PunctTokenCount(words: seq<string>): nat {
    if words == [] then 0 else (if IsPunctToken(words[0]) then 1 else 0) + PunctTokenCount(words[1..])
  }

  lemma {:induction false} ConcatAppend(a: seq<string>, b: seq<string>)
    ensures Concat(a + b) == Concat(a) + Concat(b)
  {
    if a == [] {
      assert a + b == b;
    } else {
      assert (a + b)[1..] == a[1..] + b;
      ConcatAppend(a[1..], b);
    }
  }

  lemma {:induction false} RemoveSpacesAppend(a: string, b: string)
    ensures RemoveSpaces(a + b) == RemoveSpaces(a) + RemoveSpaces(b)
  {
    if a == [] {
      assert a + b == b;
    } else {
      assert (a + b)[1..] == a[1..] + b;
      RemoveSpacesAppend(a[1..], b);
    }
  }

  lemma {:induction false} RemoveSpacesOfNoSpace(a: string)
    requires NoSpace(a)
    ensures RemoveSpaces(a) == a
  {
    if a != [] {
      RemoveSpacesOfNoSpace(a[1..]);
      assert a == [a[0]] + a[1..];
    }
  }

  lemma {:induction false} RemoveSpacesOfAllSpace(a: string)
    requires AllSpace(a)
    ensures RemoveSpaces(a) == []
  {
    if a != [] {
      RemoveSpacesOfAllSpace(a[1..]);
    }
  }

  lemma ConcatPair(a: string, b: string, rest: seq<string>)
    ensures Concat([a, b] + rest) == a + (b + Concat(rest))
  {
    var pieces := [a, b] + rest;
    assert pieces[1..] == [b] + rest;
    assert pieces[1..][1..] == rest;
  }

  lemma ConcatSingleton(w: string)
    ensures Concat([w]) == w
  {
    assert [w][1..] == [];
    assert Concat([w]) == w + Concat([]);
  }

  /** A string is what comes before position `n`, the character there, and the rest. */
  lemma Around(f: string, n: nat)
    requires n < |f|
    ensures f == f[..n] + ([f[n]] + f[n + 1..])
  {
    assert f[n..] == [f[n]] + f[n + 1..];
    assert f == f[..n] + f[n..];
  }

  /** Splitting one fragment around punctuation loses and reorders nothing. */
  lemma {:induction false} ConcatRegexSplit(f: string)
    ensures Concat(RegexSplit(f)) == f
    decreases |f|
  {
    var n := PunctIndex(f);
    if n == |f| {
      assert RegexSplit(f) == [f];
      ConcatSingleton(f);
    } else {
      var rest := RegexSplit(f[n + 1..]);
      assert RegexSplit(f) == [f[..n], [f[n]]] + rest;
      assert Concat(rest) == f[n + 1..] by {
        ConcatRegexSplit(f[n + 1..]);
      }
      ConcatPair(f[..n], [f[n]], rest);
      Around(f, n);
    }
  }

  lemma {:induction false} ConcatRegexSplitAll(fragments: seq<string>)
    ensures Concat(RegexSplitAll(fragments)) == Concat(fragments)
  {
    if fragments != [] {
      var init, last := fragments[..|fragments| - 1], fragments[|fragments| - 1];
      assert RegexSplitAll(fragments) == RegexSplitAll(init) + RegexSplit(last);
      assert Concat(RegexSplitAll(init) + RegexSplit(last)) == Concat(init) + last by {
        ConcatRegexSplitAll(init);
        ConcatAppend(RegexSplitAll(init), RegexSplit(last));
        ConcatRegexSplit(last);
      }
      assert Concat(fragments) == Concat(init) + last by {
        assert fragments == init + [last];
        ConcatAppend(init, [last]);
        ConcatSingleton(last);
      }
    }
  }

  lemma {:induction false} ConcatNonEmpty(words: seq<string>)
    ensures Concat(NonEmpty(words)) == Concat(words)
  {
    if words != [] {
      var init, last := words[..|words| - 1], words[|words| - 1];
      var kept := if last == [] then [] else [last];
      assert NonEmpty(words) == NonEmpty(init) + kept;
      assert Concat(NonEmpty(init) + kept) == Concat(init) + last by {
        ConcatNonEmpty(init);
        ConcatAppend(NonEmpty(init), kept);
        if last != [] {
          ConcatSingleton(last);
        }
      }
      assert Concat(words) == Concat(init) + last by {
        assert words == init + [last];
        ConcatAppend(init, [last]);
        ConcatSingleton(last);
      }
    }
  }

  /** `split()` keeps exactly the non-whitespace characters, in order. */
  lemma {:induction false} ConcatSplit(s: string)
    ensures Concat(Split(s)) == RemoveSpaces(s)
    decreases |s|
  {
    if s != [] {
      if IsSpace(s[0]) {
        ConcatSplit(s[1..]);
      } else {
        var n := WordLength(s);
        ConcatSplit(s[n..]);
        assert ([s[..n]] + Split(s[n..]))[1..] == Split(s[n..]);
        assert s == s[..n] + s[n..];
        RemoveSpacesAppend(s[..n], s[n..]);
        RemoveSpacesOfNoSpace(s[..n]);
      }
    }
  }

  lemma RemoveSpacesBlankPrefix(s: string, lead: nat)
    requires lead <= |s| && AllSpace(s[..lead])
    ensures RemoveSpaces(s[lead..]) == RemoveSpaces(s)
  {
    var p, t := s[..lead], s[lead..];
    assert p + t == s;
    RemoveSpacesAppend(p, t);
    RemoveSpacesOfAllSpace(p);
  }

  lemma RemoveSpacesBlankSuffix(t: string, m: nat)
    requires m <= |t| && AllSpace(t[m..])
    ensures RemoveSpaces(t[..m]) == RemoveSpaces(t)
  {
    var x, q := t[..m], t[m..];
    assert x + q == t;
    RemoveSpacesAppend(x, q);
    RemoveSpacesOfAllSpace(q);
  }

  /** Stripping only removes whitespace. */
  lemma RemoveSpacesStrip(s: string)
    ensures RemoveSpaces(Strip(s)) == RemoveSpaces(s)
  {
    RemoveSpacesBlankPrefix(s, LeadingSpace(s));
    var t := s[LeadingSpace(s)..];
    RemoveSpacesBlankSuffix(t, |t| - TrailingSpace(t));
  }

  /**
   * No character is lost or reordered: the tokens, concatenated in order,
   * give the sentence with its whitespace removed.
   */
  lemma TokensKeepAllCharacters(sentence: string)
    ensures Concat(Tokens(sentence)) == RemoveSpaces(sentence)
  {
    var fragments := Split(Strip(sentence));
    ConcatNonEmpty(RegexSplitAll(fragments));
    ConcatRegexSplitAll(fragments);
    ConcatSplit(Strip(sentence));
    RemoveSpacesStrip(sentence);
  }

  /** Every piece is free of whitespace and is one punctuation character or has none. */
  predicate PiecesShaped(words: seq<string>) {
    forall k :: 0 <= k < |words| ==> NoSpace(words[k]) && (IsPunctToken(words[k]) || NoPunct(words[k]))
  }

  lemma {:induction false} RegexSplitAllShaped(fragments: seq<string>)
    requires forall k :: 0 <= k < |fragments| ==> NoSpace(fragments[k])
    ensures PiecesShaped(RegexSplitAll(fragments))
  {
    if fragments != [] {
      var init, last := fragments[..|fragments| - 1], fragments[|fragments| - 1];
      assert forall k :: 0 <= k < |init| ==> init[k] == fragments[k];
      RegexSplitAllShaped(init);
      var front, pieces := RegexSplitAll(init), RegexSplit(last);
      assert NoSpace(last);
      RegexSplitAlternates(last);
      RegexSplitKeepsNoSpace(last);
      forall k | 0 <= k < |pieces|
        ensures NoSpace(pieces[k]) && (IsPunctToken(pieces[k]) || NoPunct(pieces[k]))
      {
        if k % 2 == 0 {
          assert NoPunct(pieces[k]);
        }
      }
      assert RegexSplitAll(fragments) == front + pieces;
      assert forall k :: 0 <= k < |pieces| ==> (front + pieces)[|front| + k] == pieces[k];
      assert forall k :: 0 <= k < |front| ==> (front + pieces)[k] == front[k];
    }
  }

  /**
   * Every token is non-empty and free of whitespace, and is either a single
   * punctuation character or contains no punctuation at all.
   */
  lemma TokensShaped(sentence: string)
    ensures forall k :: 0 <= k < |Tokens(sentence)| ==> TokenShaped(Tokens(sentence)[k])
  {
    var words := RegexSplitAll(Split(Strip(sentence)));
    SplitWords(Strip(sentence));
    RegexSplitAllShaped(Split(Strip(sentence)));
    forall k | 0 <= k < |Tokens(sentence)|
      ensures TokenShaped(Tokens(sentence)[k])
    {
      var w := Tokens(sentence)[k];
      NonEmptyMembers(words);
      assert w in NonEmpty(words);
      var j :| 0 <= j < |words| && words[j] == w;
    }
  }

  lemma {:induction false} CountPunctAppend(a: string, b: string)
    ensures CountPunct(a + b) == CountPunct(a) + CountPunct(b)
  {
    if a == [] {
      assert a + b == b;
    } else {
      assert (a + b)[1..] == a[1..] + b;
      CountPunctAppend(a[1..], b);
    }
  }

  lemma {:induction false} CountPunctOfNoPunct(a: string)
    requires NoPunct(a)
    ensures CountPunct(a) == 0
  {
    if a != [] {
      CountPunctOfNoPunct(a[1..]);
    }
  }

  lemma {:induction false} CountPunctOfPieces(words: seq<string>)
    requires forall k :: 0 <= k < |words| ==> IsPunctToken(words[k]) || NoPunct(words[k])
    ensures CountPunct(Concat(words)) == PunctTokenCount(words)
  {
    if words != [] {
      CountPunctOfPieces(words[1..]);
      CountPunctAppend(words[0], Concat(words[1..]));
      if IsPunctToken(words[0]) {
        assert words[0][1..] == [];
      } else {
        CountPunctOfNoPunct(words[0]);
      }
    }
  }

  lemma {:induction false} CountPunctRemoveSpaces(s: string)
    ensures CountPunct(RemoveSpaces(s)) == CountPunct(s)
  {
    if s != [] {
      CountPunctRemoveSpaces(s[1..]);
      CountPunctAppend(if IsSpace(s[0]) then [] else [s[0]], RemoveSpaces(s[1..]));
      if IsSpace(s[0]) {
        assert !IsPunct(s[0]);
      } else {
        assert [s[0]][1..] == [];
      }
    }
  }

  /**
   * Every punctuation character of the sentence becomes a one-character token
   * of its own: there are exactly as many such tokens as punctuation
   * characters.
   */
  lemma PunctuationTokenCount(sentence: string)
    ensures PunctTokenCount(Tokens(sentence)) == CountPunct(sentence)
  {
    TokensShaped(sentence);
    CountPunctOfPieces(Tokens(sentence));
    TokensKeepAllCharacters(sentence);
    CountPunctRemoveSpaces(sentence);
  }

  // ---------------------------------------------------------------------
  // Surrounding whitespace

  lemma {:induction false} SplitSkipsLeadingSpace(p: string, x: string)
    requires AllSpace(p)
    ensures Split(p + x) == Split(x)
  {
    if p == [] {
      assert p + x == x;
    } else {
      assert (p + x)[1..] == p[1..] + x;
      SplitSkipsLeadingSpace(p[1..], x);
    }
  }

  lemma {:induction false} WordLengthUnique(s: string, n: nat)
    requires n <= |s| && NoSpace(s[..n]) && (n < |s| ==> IsSpace(s[n]))
    ensures WordLength(s) == n
  {
    if n > 0 {
      assert s[1..][..n - 1] == s[..n][1..];
      WordLengthUnique(s[1..], n - 1);
    }
  }

  lemma {:induction false} SplitIgnoresTrailingSpace(x: string, q: string)
    requires AllSpace(q)
    ensures Split(x + q) == Split(x)
    decreases |x|
  {
    if x == [] {
      assert x + q == q + [];
      SplitSkipsLeadingSpace(q, []);
    } else if IsSpace(x[0]) {
      assert (x + q)[1..] == x[1..] + q;
      SplitIgnoresTrailingSpace(x[1..], q);
    } else {
      var n := WordLength(x);
      assert (x + q)[..n] == x[..n];
      WordLengthUnique(x + q, n);
      assert (x + q)[n..] == x[n..] + q;
      SplitIgnoresTrailingSpace(x[n..], q);
    }
  }

  lemma SplitOfLstrip(s: string)
    ensures Split(s[LeadingSpace(s)..]) == Split(s)
  {
    var lead := LeadingSpace(s);
    assert s[..lead] + s[lead..] == s;
    SplitSkipsLeadingSpace(s[..lead], s[lead..]);
  }

  lemma SplitOfRstrip(t: string, m: nat)
    requires m <= |t| && AllSpace(t[m..])
    ensures Split(t[..m]) == Split(t)
  {
    var x, q := t[..m], t[m..];
    assert x + q == t;
    SplitIgnoresTrailingSpace(x, q);
  }

  lemma SplitOfStrip(s: string)
    ensures Split(Strip(s)) == Split(s)
  {
    SplitOfLstrip(s);
    var t := s[LeadingSpace(s)..];
    SplitOfRstrip(t, |t| - TrailingSpace(t));
  }

  /** Leading and trailing whitespace of the sentence has no effect. */
  lemma SurroundingWhitespaceIgnored(p: string, s: string, q: string)
    requires AllSpace(p) && AllSpace(q)
    ensures Tokens(p + s + q) == Tokens(s)
  {
    assert Split(p + s + q) == Split(s) by {
      assert p + s + q == p + (s + q);
      SplitSkipsLeadingSpace(p, s + q);
      SplitIgnoresTrailingSpace(s, q);
    }
    assert Split(Strip(p + s + q)) == Split(Strip(s)) by {
      SplitOfStrip(p + s + q);
      SplitOfStrip(s);
    }
  }

  // ---------------------------------------------------------------------
  // Where tokens begin and end

  /** A whitespace character separates words: `split` never joins across it. */
  lemma SplitSeparated(a: string, c: char, b: string)
    requires IsSpace(c)
    ensures Split(a + [c] + b) == Split(a) + Split(b)
  {
    assert a + [c] + b == a + ([c] + b);
    SplitJoin(a, [c] + b);
    SplitSkipsLeadingSpace([c], b);
  }

  /** Text that starts with whitespace is split apart from what precedes it. */
  lemma {:induction false} SplitJoin(x: string, y: string)
    requires y != [] && IsSpace(y[0])
    ensures Split(x + y) == Split(x) + Split(y)
    decreases |x|
  {
    if x == [] {
      assert x + y == y;
    } else if IsSpace(x[0]) {
      assert (x + y)[1..] == x[1..] + y;
      SplitJoin(x[1..], y);
    } else {
      var n := WordLength(x);
      assert (x + y)[..n] == x[..n];
      WordLengthUnique(x + y, n);
      assert (x + y)[n..] == x[n..] + y;
      SplitJoin(x[n..], y);
    }
  }

  /** Splitting a list of fragments around punctuation splits each part. */
  lemma {:induction false} RegexSplitAllAppend(x: seq<string>, y: seq<string>)
    ensures RegexSplitAll(x + y) == RegexSplitAll(x) + RegexSplitAll(y)
    decreases |y|
  {
    if y == [] {
      assert x + y == x;
    } else {
      var init, last := y[..|y| - 1], y[|y| - 1];
      assert (x + y)[..|x + y| - 1] == x + init;
      assert (x + y)[|x + y| - 1] == last;
      assert RegexSplitAll(x + y) == RegexSplitAll(x + init) + RegexSplit(last);
      RegexSplitAllAppend(x, init);
      assert RegexSplitAll(y) == RegexSplitAll(init) + RegexSplit(last);
    }
  }

  /** The tokens of a sentence are the tokens of its `split` words. */
  lemma TokensOfWords(s: string)
    ensures Tokens(s) == NonEmpty(RegexSplitAll(Split(s)))
  {
    SplitOfStrip(s);
  }

  /**
   * No token spans whitespace: the tokens of two texts joined by a whitespace
   * character are the tokens of the first followed by those of the second.
   */
  lemma TokensSeparated(a: string, c: char, b: string)
    requires IsSpace(c)
    ensures Tokens(a + [c] + b) == Tokens(a) + Tokens(b)
  {
    TokensOfWords(a + [c] + b);
    TokensOfWords(a);
    TokensOfWords(b);
    SplitSeparated(a, c, b);
    RegexSplitAllAppend(Split(a), Split(b));
    NonEmptyAppend(RegexSplitAll(Split(a)), RegexSplitAll(Split(b)));
  }

  /**
   * A whitespace-free fragment is tokenized by the punctuation split alone:
   * its tokens are the non-empty pieces of `re.split`, in order.
   */
  lemma TokensOfFragment(f: string)
    requires f != [] && NoSpace(f)
    ensures Tokens(f) == NonEmpty(RegexSplit(f))
  {
    TokensOfWords(f);
    assert Split(f) == [f] by {
      assert f[..|f|] == f;
      WordLengthUnique(f, |f|);
      assert f[|f|..] == [];
    }
    assert RegexSplitAll([f]) == RegexSplit(f) by {
      assert [f][..0] == [];
    }
  }

  lemma BlankSentenceTokens(s: string)
    requires AllSpace(s)
    ensures Tokens(s) == []
  {
    assert Split(s) == [] by {
      assert s + [] == s;
      SplitSkipsLeadingSpace(s, []);
    }
    SplitOfStrip(s);
    assert RegexSplitAll([]) == [];
  }

  lemma RemoveSpacesKeeps(s: string, i: nat)
    requires i < |s| && !IsSpace(s[i])
    ensures RemoveSpaces(s) != []
  {
    assert s == s[..i] + s[i..];
    RemoveSpacesAppend(s[..i], s[i..]);
    assert s[i..][0] == s[i];
  }

  /** An empty or all-whitespace sentence, and only such, yields no tokens. */
  lemma BlankSentenceHasNoTokens(s: string)
    ensures Tokens(s) == [] <==> AllSpace(s)
  {
    if AllSpace(s) {
      BlankSentenceTokens(s);
    } else {
      var i :| 0 <= i < |s| && !IsSpace(s[i]);
      RemoveSpacesKeeps(s, i);
      TokensKeepAllCharacters(s);
    }
  }
}
