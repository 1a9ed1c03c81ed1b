/** The text normaliser (`NlpPreprocessor`): raw text to a list of
    lower-case, stop-word-free, lightly lemmatised tokens. */
module NlpPreprocessor {
  import opened Strings

  /** `EnStopWords`, a case-insensitive set; every entry is lower case. */
  const EnStopWords: set<string> :=
    {"the", "a", "an", "and", "or", "of", "to", "in", "on", "for", "with", "at", "from",
     "by", "as", "is", "are", "was", "were"}

  /** `FrStopWords`, a case-insensitive set; every entry is lower case. */
  const FrStopWords: set<string> :=
    {"le", "la", "les", "un", "une", "et", "ou", "de", "des", "du", "en", "dans", "pour",
     "avec", "par", "est", "sont", "\U{00E9}tais"}

  /** The stop-word set for a language tag: French for a tag that starts
      with "fr" in any case, English otherwise. */
  function StopWordsFor(language: string): set<string> {
    if StartsWithIgnoreCase(language, "fr") then FrStopWords else EnStopWords
  }

  /** Membership in a case-insensitive set whose entries are all lower case. */
  predicate IsStopWord(stopWords: set<string>, token: string) {
    Lower(token) in stopWords
  }

  /** The regular-expression replacement of `[^\p{L}\p{N}\s]` by a space, one character. */
  function Scrub(c: char): char {
    if IsLetter(c) || IsNumber(c) || IsSpace(c) then c else ' '
  }

  /** A character that can appear in a token: lower case, a letter, a number
      or white space other than the space character itself. */
  predicate IsTokenChar(c: char) {
    c != ' ' && LowerChar(c) == c && (IsLetter(c) || IsNumber(c) || IsSpace(c))
  }

  /** The text after lower-casing and punctuation replacement. */
  function Clean(text: string): (r: string)
    ensures |r| == |text|
    ensures forall c <- r :: c == ' ' || IsTokenChar(c)
    ensures forall i :: 0 <= i < |text| ==>
              r[i] == if IsLetter(text[i]) || IsNumber(text[i]) || IsSpace(text[i]) then Lower(text)[i] else ' '
  {
    var lower := Lower(text);
    var r := seq(|lower|, i requires 0 <= i < |lower| => Scrub(lower[i]));
    assert forall i :: 0 <= i < |r| ==> r[i] == ' ' || IsTokenChar(r[i]);
    r
  }

  /** `Lemmatize`: strip a trailing "ing", else "ed", else "s". */
  function Lemmatize(token: string): (r: string)
    ensures |r| <= |token| && r == token[..|r|]
    ensures |token| - |r| <= 3
    ensures |r| < |token| ==> |r| >= 2
    ensures |token| - |r| == 3 <==> EndsWith(token, "ing") && |token| > 4
    ensures |token| - |r| == 2 <==> !(EndsWith(token, "ing") && |token| > 4) && EndsWith(token, "ed") && |token| > 3
    ensures |r| == |token| <==>
              && !(EndsWith(token, "ing") && |token| > 4)
              && !(EndsWith(token, "ed") && |token| > 3)
              && !(EndsWith(token, "s") && |token| > 3)
  {
    if EndsWith(token, "ing") && |token| > 4 then token[..|token| - 3]
    else if EndsWith(token, "ed") && |token| > 3 then token[..|token| - 2]
    else if EndsWith(token, "s") && |token| > 3 then token[..|token| - 1]
    else token
  }

  /** The `Where`/`Select`/`Where` chain over the split pieces: drop stop
      words, lemmatise, drop what is one character or shorter. */
  function Normalize(pieces: seq<string>, stopWords: set<string>): (tokens: seq<string>)
    ensures |tokens| <= |pieces|
    ensures forall t <- tokens :: |t| >= 2
    ensures forall t <- tokens :: exists p <- pieces :: !IsStopWord(stopWords, p) && t == Lemmatize(p)
  {
    if pieces == [] then []
    else
      var rest := Normalize(pieces[1..], stopWords);
      assert forall t <- rest :: exists p <- pieces :: !IsStopWord(stopWords, p) && t == Lemmatize(p) by {
        forall t <- rest ensures exists p <- pieces :: !IsStopWord(stopWords, p) && t == Lemmatize(p) {
          var p :| p in pieces[1..] && !IsStopWord(stopWords, p) && t == Lemmatize(p);
        }
      }
      var p := pieces[0];
      if IsStopWord(stopWords, p) then rest
      else
        var t := Lemmatize(p);
        if |t| > 1 then [t] + rest else rest
  }

  /** `Preprocess(text, language)`. */
  function Preprocess(text: string, language: string): (tokens: seq<string>)
    ensures IsWhiteSpaceOnly(text) ==> tokens == []
    ensures forall t <- tokens :: |t| >= 2
    ensures forall t <- tokens :: forall c <- t :: IsTokenChar(c)
  {
    if IsWhiteSpaceOnly(text) then []
    else
      var pieces := Split(Clean(text), {' '});
      NormalizeKeepsTokenChars(pieces, StopWordsFor(language));
      Normalize(pieces, StopWordsFor(language))
  }

  /** Lemmatising and filtering introduce no character that was not in the pieces. */
  lemma {:induction false} NormalizeKeepsTokenChars(pieces: seq<string>, stopWords: set<string>)
    requires forall p <- pieces :: forall c <- p :: c == ' ' || IsTokenChar(c)
    requires forall p <- pieces :: ' ' !in p
    ensures forall t <- Normalize(pieces, stopWords) :: forall c <- t :: IsTokenChar(c)
  {
    if pieces != [] {
      assert forall p <- pieces[1..] :: p in pieces;
      NormalizeKeepsTokenChars(pieces[1..], stopWords);
      var p := pieces[0];
      var t := Lemmatize(p);
      assert forall c <- t :: c in p by {
        forall c <- t ensures c in p {
          var i :| 0 <= i < |t| && t[i] == c;
          assert p[i] == c;
        }
      }
    }
  }

  /** Pieces are processed one at a time and in order: the pipeline over a
      concatenation is the concatenation of the pipelines. */
  lemma {:induction false} NormalizeAppend(a: seq<string>, b: seq<string>, stopWords: set<string>)
    ensures Normalize(a + b, stopWords) == Normalize(a, stopWords) + Normalize(b, stopWords)
    decreases |a|
  {
    if a == [] {
      assert a + b == b;
    } else {
      assert (a + b)[1..] == a[1..] + b;
      NormalizeAppend(a[1..], b, stopWords);
    }
  }

  /** Each piece yields at most one token: nothing for a stop word (tested
      before lemmatising), otherwise its lemma when that is longer than one
      character. */
  lemma NormalizeOnePiece(p: string, stopWords: set<string>)
    ensures Normalize([p], stopWords) ==
              if IsStopWord(stopWords, p) || |Lemmatize(p)| <= 1 then [] else [Lemmatize(p)]
  {
    assert [p][1..] == [];
  }

  /** A language tag selects the French stop words exactly when it starts
      with "fr" ignoring case. */
  lemma FrenchExactlyForFrTags(language: string)
    ensures StopWordsFor(language) == FrStopWords <==> StartsWithIgnoreCase(language, "fr")
    ensures !StartsWithIgnoreCase(language, "fr") ==> StopWordsFor(language) == EnStopWords
  {
    assert "le" in FrStopWords && "le" !in EnStopWords;
  }

  /** The lemmas that can come from a piece ending in "s": a lemma of length
      above 3 that ends in "s" only comes from that lemma followed by "ing",
      "ed" or "s", never from itself. */
  lemma {:induction false} LemmaEndingInS(p: string, w: string)
    requires Lemmatize(p) == w && EndsWith(w, "s") && |w| > 3
    ensures p == w + "ing" || p == w + "ed" || p == w + "s"
  {
    if EndsWith(p, "ing") && |p| > 4 {
      assert p == p[..|p| - 3] + "ing";
    } else if EndsWith(p, "ed") && |p| > 3 {
      assert p == p[..|p| - 2] + "ed";
    } else {
      assert p == p[..|p| - 1] + "s";
    }
  }

  /** Text of lower-case ASCII letters comes out of cleaning unchanged. */
  lemma CleanOfLowerWord(text: string)
    requires forall c <- text :: 'a' <= c <= 'z'
    ensures Clean(text) == text
  {
    forall i | 0 <= i < |text| ensures Clean(text)[i] == text[i] {
      assert text[i] in text;
    }
  }

  /** A single word of lower-case ASCII letters is a single piece. */
  lemma PreprocessOfOneWord(word: string, language: string)
    requires word != [] && forall c <- word :: 'a' <= c <= 'z'
    ensures Preprocess(word, language) == Normalize([word], StopWordsFor(language))
  {
    assert !IsWhiteSpaceOnly(word) by { assert word[0] in word; }
    CleanOfLowerWord(word);
    SplitOfOnePiece(word, {' '});
  }

  /** "en" selects the English stop words. */
  lemma EnglishTag()
    ensures StopWordsFor("en") == EnStopWords
  {
    assert Lower("en")[0] == 'e' && Lower("fr")[0] == 'f';
  }

  /** The piece "ares" is no stop word and is lemmatised to "are". */
  lemma AresIsKept()
    ensures Normalize(["ares"], EnStopWords) == ["are"]
  {
    assert !IsStopWord(EnStopWords, "ares") by { assert Lower("ares") == "ares"; }
    assert Lemmatize("ares") == "are";
    NormalizeOnePiece("ares", EnStopWords);
  }

  /** A stop word is tested before lemmatising: "ares" is not a stop word,
      and its lemma "are" is kept even though "are" is one. */
  lemma StopWordsTestedBeforeLemmatising()
    ensures IsStopWord(EnStopWords, "are")
    ensures Preprocess("ares", "en") == ["are"]
  {
    assert Lower("are") == "are";
    EnglishTag();
    PreprocessOfOneWord("ares", "en");
    AresIsKept();
  }
}
