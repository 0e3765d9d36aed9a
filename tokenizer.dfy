/**
 * The word counter of the window model: text is cut at twelve fixed delimiter
 * characters (String.Split with RemoveEmptyEntries) and the pieces that equal
 * the searched word exactly are counted.
 */
module Tokenizer {

  /** The twelve characters the text is split on, in the order the source lists them. */
  const SplitChars: seq<char> := ['.', '?', '!', ' ', ';', ':', ',', '\n', '\r', '\t', '"', '\'']

  predicate IsDelimiter(c: char) {
    c in SplitChars
  }

  /** No character of `s` is a delimiter. */
  predicate DelimiterFree(s: string) {
    forall k :: 0 <= k < |s| ==> !IsDelimiter(s[k])
  }

  /** Number of delimiter characters in `s`. */
  function DelimiterCount(s: string): nat {
    if s == [] then 0 else (if IsDelimiter(s[0]) then 1 else 0) + DelimiterCount(s[1..])
  }

  /** `s` with every delimiter character removed. */
  function Strip(s: string): string {
    if s == [] then [] else (if IsDelimiter(s[0]) then [] else [s[0]]) + Strip(s[1..])
  }

  /** All pieces are glued back together, in order. */
  function Concat(pieces: seq<string>): string {
    if pieces == [] then [] else pieces[0] + Concat(pieces[1..])
  }

  /**
   * The raw split (String.Split without options): every delimiter ends one
   * piece and starts the next, so empty pieces appear between adjacent
   * delimiters and at either end.
   */
  function Pieces(text: string): (r: seq<string>)
    ensures |r| == DelimiterCount(text) + 1
  {
    if text == [] then [""]
    else if IsDelimiter(text[0]) then [""] + Pieces(text[1..])
    else
      var rest := Pieces(text[1..]);
      [[text[0]] + rest[0]] + rest[1..]
  }

  /** The pieces that are not empty (StringSplitOptions.RemoveEmptyEntries). */
  function NonEmpty(pieces: seq<string>): (r: seq<string>)
    ensures |r| <= |pieces|
    ensures forall k :: 0 <= k < |r| ==> r[k] != ""
  {
    if pieces == [] then []
    else (if pieces[0] == "" then [] else [pieces[0]]) + NonEmpty(pieces[1..])
  }

  /** text.Split(splitChars, StringSplitOptions.RemoveEmptyEntries) */
  function Tokenize(text: string): seq<string> {
    NonEmpty(Pieces(text))
  }

  /** How many elements of `tokens` equal `word` (Where(x => x == Word).Count()). */
  function Occurrences(tokens: seq<string>, word: string): (r: nat)
    ensures r <= |tokens|
    ensures r == 0 <== word !in tokens
  {
    if tokens == [] then 0
    else (if tokens[0] == word then 1 else 0) + Occurrences(tokens[1..], word)
  }

  /** The number of tokens of `text` exactly equal to `word`. */
  function WordCount(text: string, word: string): nat {
    Occurrences(Tokenize(text), word)
  }

  /** The tokens joined with single spaces. */
  function JoinSpaced(tokens: seq<string>): string {
    if tokens == [] then []
    else if |tokens| == 1 then tokens[0]
    else tokens[0] + " " + JoinSpaced(tokens[1..])
  }

  // ---------------------------------------------------------------------
  // Pieces and tokens carry no delimiter, and lose nothing else

  lemma {:induction false} PiecesDelimiterFree(text: string)
    ensures forall k :: 0 <= k < |Pieces(text)| ==> DelimiterFree(Pieces(text)[k])
  {
    if text != [] {
      PiecesDelimiterFree(text[1..]);
      if !IsDelimiter(text[0]) {
        var rest := Pieces(text[1..]);
        assert DelimiterFree(rest[0]);
        assert DelimiterFree([text[0]] + rest[0]);
      }
    }
  }

  lemma {:induction false} ConcatPieces(text: string)
    ensures Concat(Pieces(text)) == Strip(text)
  {
    if text != [] {
      ConcatPieces(text[1..]);
      var rest := Pieces(text[1..]);
      if !IsDelimiter(text[0]) {
        assert Pieces(text)[1..] == rest[1..];
        calc {
          Concat(Pieces(text));
          [text[0]] + rest[0] + Concat(rest[1..]);
          { assert Concat(rest) == rest[0] + Concat(rest[1..]); }
          [text[0]] + Concat(rest);
        }
      }
    }
  }

  lemma {:induction false} ConcatNonEmpty(pieces: seq<string>)
    ensures Concat(NonEmpty(pieces)) == Concat(pieces)
  {
    if pieces != [] {
      ConcatNonEmpty(pieces[1..]);
      ConcatAppend(if pieces[0] == "" then [] else [pieces[0]], NonEmpty(pieces[1..]));
      if pieces[0] != "" {
        assert Concat([pieces[0]]) == pieces[0] + Concat([]);
      }
    }
  }

  lemma {:induction false} ConcatAppend(a: seq<string>, b: seq<string>)
    ensures Concat(a + b) == Concat(a) + Concat(b)
  {
    if a != [] {
      assert (a + b)[1..] == a[1..] + b;
      ConcatAppend(a[1..], b);
    } else {
      assert a + b == b;
    }
  }

  lemma {:induction false} NonEmptyAppend(a: seq<string>, b: seq<string>)
    ensures NonEmpty(a + b) == NonEmpty(a) + NonEmpty(b)
  {
    if a != [] {
      assert (a + b)[1..] == a[1..] + b;
      NonEmptyAppend(a[1..], b);
    } else {
      assert a + b == b;
    }
  }

  lemma {:induction false} NonEmptyKeeps(pieces: seq<string>, t: string)
    requires t in NonEmpty(pieces)
    ensures t in pieces
  {
    if pieces != [] && t != pieces[0] {
      NonEmptyKeeps(pieces[1..], t);
    }
  }

  /**
   * Tokenizing never yields an empty token or a token holding a delimiter,
   * and gluing the tokens together gives back the text minus its delimiters.
   */
  lemma TokensWellFormed(text: string)
    ensures forall t :: t in Tokenize(text) ==> t != "" && DelimiterFree(t)
    ensures Concat(Tokenize(text)) == Strip(text)
  {
    PiecesDelimiterFree(text);
    forall t | t in Tokenize(text) ensures t != "" && DelimiterFree(t) {
      NonEmptyKeeps(Pieces(text), t);
    }
    ConcatNonEmpty(Pieces(text));
    ConcatPieces(text);
  }

  // ---------------------------------------------------------------------
  // Structure: a delimiter separates the tokens on its two sides

  lemma {:induction false} PiecesSplit(a: string, d: char, b: string)
    requires IsDelimiter(d)
    ensures Pieces(a + [d] + b) == Pieces(a) + Pieces(b)
  {
    if a == [] {
      assert a + [d] + b == [d] + b;
      assert ([d] + b)[1..] == b;
    } else {
      assert (a + [d] + b)[0] == a[0];
      assert (a + [d] + b)[1..] == a[1..] + [d] + b;
      PiecesSplit(a[1..], d, b);
    }
  }

  /** Tokens of text around a delimiter are the tokens of either side, in order. */
  lemma TokenizeSplit(a: string, d: char, b: string)
    requires IsDelimiter(d)
    ensures Tokenize(a + [d] + b) == Tokenize(a) + Tokenize(b)
  {
    PiecesSplit(a, d, b);
    NonEmptyAppend(Pieces(a), Pieces(b));
  }

  lemma {:induction false} PiecesOfWord(w: string)
    requires DelimiterFree(w)
    ensures Pieces(w) == [w]
  {
    if w != [] {
      assert DelimiterFree(w[1..]) by {
        forall k | 0 <= k < |w[1..]| ensures !IsDelimiter(w[1..][k]) { assert w[1..][k] == w[k + 1]; }
      }
      PiecesOfWord(w[1..]);
      assert [w[0]] + w[1..] == w;
    }
  }

  /** A non-empty delimiter-free text is a single token. */
  lemma TokenizeWord(w: string)
    requires w != "" && DelimiterFree(w)
    ensures Tokenize(w) == [w]
  {
    PiecesOfWord(w);
  }

  /** Well-formed tokens joined by spaces tokenize back to themselves. */
  lemma {:induction false} TokenizeJoinSpaced(tokens: seq<string>)
    requires forall t :: t in tokens ==> t != "" && DelimiterFree(t)
    ensures Tokenize(JoinSpaced(tokens)) == tokens
  {
    if tokens == [] {
    } else if |tokens| == 1 {
      assert tokens[0] in tokens;
      TokenizeWord(tokens[0]);
    } else {
      assert tokens[0] in tokens;
      assert forall t :: t in tokens[1..] ==> t in tokens;
      TokenizeJoinSpaced(tokens[1..]);
      TokenizeWord(tokens[0]);
      TokenizeSplit(tokens[0], ' ', JoinSpaced(tokens[1..]));
      assert tokens[0] + " " + JoinSpaced(tokens[1..]) == tokens[0] + [' '] + JoinSpaced(tokens[1..]);
      assert [tokens[0]] + tokens[1..] == tokens;
    }
  }

  /** Re-tokenizing the space-joined tokens of any text gives the same tokens. */
  lemma RetokenizeIsIdentity(text: string)
    ensures Tokenize(JoinSpaced(Tokenize(text))) == Tokenize(text)
  {
    TokensWellFormed(text);
    TokenizeJoinSpaced(Tokenize(text));
  }

  // ---------------------------------------------------------------------
  // The word count

  lemma {:induction false} OccurrencesIsMultiplicity(tokens: seq<string>, word: string)
    ensures Occurrences(tokens, word) == multiset(tokens)[word]
  {
    if tokens != [] {
      OccurrencesIsMultiplicity(tokens[1..], word);
      assert tokens == [tokens[0]] + tokens[1..];
      assert multiset(tokens) == multiset([tokens[0]]) + multiset(tokens[1..]);
    }
  }

  lemma {:induction false} OccurrencesAppend(a: seq<string>, b: seq<string>, word: string)
    ensures Occurrences(a + b, word) == Occurrences(a, word) + Occurrences(b, word)
  {
    if a != [] {
      assert (a + b)[1..] == a[1..] + b;
      OccurrencesAppend(a[1..], b, word);
    } else {
      assert a + b == b;
    }
  }

  /**
   * The count is the multiplicity of `word` among the tokens, so it lies
   * between 0 and the number of tokens.
   */
  lemma WordCountIsMultiplicity(text: string, word: string)
    ensures WordCount(text, word) == multiset(Tokenize(text))[word]
    ensures WordCount(text, word) <= |Tokenize(text)|
  {
    OccurrencesIsMultiplicity(Tokenize(text), word);
  }

  /** An empty word, or one holding a delimiter, is never counted. */
  lemma WordCountZeroForUnsplittableWord(text: string, word: string)
    requires word == "" || !DelimiterFree(word)
    ensures WordCount(text, word) == 0
  {
    TokensWellFormed(text);
  }

  /** Counting is additive across a delimiter. */
  lemma WordCountSplit(a: string, d: char, b: string, word: string)
    requires IsDelimiter(d)
    ensures WordCount(a + [d] + b, word) == WordCount(a, word) + WordCount(b, word)
  {
    TokenizeSplit(a, d, b);
    OccurrencesAppend(Tokenize(a), Tokenize(b), word);
  }
}
