/** The skill pipeline of the analysis engine: text through the
    preprocessor, then through the skill dictionary. */
module SkillPipeline {
  import opened Strings
  import opened NlpPreprocessor
  import opened SkillDictionary

  /** The skills a text in a language yields: the pipeline then the dictionary. */
  function SkillsOf(text: string, language: string): seq<string> {
    ExtractSkills(Preprocess(text, language))
  }

  /** A token made of token characters is its own lower-case form and holds
      neither `#` nor `.`, so it is none of the punctuated vocabulary entries. */
  lemma {:induction false} TokenIsNotPunctuated(s: string)
    requires forall c <- s :: IsTokenChar(c)
    ensures '#' !in s && '.' !in s
    ensures Lower(s) == s
    ensures s != "c#" && s != ".net" && s != "asp.net" && s != "ml.net" && s != "node.js"
  {
    assert forall i :: 0 <= i < |s| ==> IsTokenChar(s[i]);
    assert '#' in "c#" && '.' in ".net" && '.' in "asp.net" && '.' in "ml.net" && '.' in "node.js";
  }

  /** No extracted skill holds `#` or `.`, so "c#", ".net", "asp.net",
      "ml.net" and "node.js" are never recognised, whatever the text. */
  lemma PunctuatedSkillsNeverExtracted(text: string, language: string)
    ensures forall s <- SkillsOf(text, language) :: '#' !in s && '.' !in s
    ensures forall s <- SkillsOf(text, language) ::
              Lower(s) != "c#" && Lower(s) != ".net" && Lower(s) != "asp.net"
              && Lower(s) != "ml.net" && Lower(s) != "node.js"
  {
    var tokens := Preprocess(text, language);
    var skills := ExtractSkills(tokens);
    forall s <- skills
      ensures '#' !in s && '.' !in s
      ensures Lower(s) != "c#" && Lower(s) != ".net" && Lower(s) != "asp.net"
      ensures Lower(s) != "ml.net" && Lower(s) != "node.js"
    {
      assert s in tokens;
      TokenIsNotPunctuated(s);
    }
  }

  /** The vocabulary entries longer than 3 that end in "s" lose it to the
      lemmatiser ("aws" also ends in "s" but is too short to lose it). */
  lemma PluralWords(w: string)
    requires w == "kubernetes" || w == "microservices" || w == "redis"
    ensures EndsWith(w, "s") && |w| > 3
    ensures Lemmatize(w) == w[..|w| - 1]
  {
    assert w[|w| - 1] == 's';
  }

  /** "kubernetes", "microservices" and "redis" come out of the pipeline only
      from a piece that is the word followed by "ing", "ed" or "s"; the words
      themselves lose their final "s". */
  lemma PluralSkillsOnlyFromSuffixedPieces(text: string, language: string, w: string)
    requires w == "kubernetes" || w == "microservices" || w == "redis"
    requires w in Preprocess(text, language)
    ensures exists p <- Split(Clean(text), {' '}) :: p == w + "ing" || p == w + "ed" || p == w + "s"
    ensures Lemmatize(w) == w[..|w| - 1]
  {
    PluralWords(w);
    var pieces := Split(Clean(text), {' '});
    var stopWords := StopWordsFor(language);
    assert !IsWhiteSpaceOnly(text);
    assert w in Normalize(pieces, stopWords);
    var p :| p in pieces && !IsStopWord(stopWords, p) && w == Lemmatize(p);
    LemmaEndingInS(p, w);
  }

  /** A text that is just one of these words yields no skill at all: the
      lemma, the word without its "s", is not in the vocabulary. */
  lemma PluralWordAloneYieldsNoSkill(w: string)
    requires w == "kubernetes" || w == "microservices" || w == "redis"
    ensures SkillsOf(w, "en") == []
  {
    var stem := w[..|w| - 1];
    PreprocessOfPluralWord(w);
    StemNotRecognized(w);
    SingleUnrecognizedToken(stem);
  }

  lemma PreprocessOfPluralWord(w: string)
    requires w == "kubernetes" || w == "microservices" || w == "redis"
    ensures Preprocess(w, "en") == [w[..|w| - 1]]
  {
    LowerCaseLetters(w);
    PreprocessOfOneWord(w, "en");
    EnglishTag();
    assert Preprocess(w, "en") == Normalize([w], EnStopWords);
    KeptPiece(w);
  }

  lemma KeptPiece(w: string)
    requires w == "kubernetes" || w == "microservices" || w == "redis"
    ensures Normalize([w], EnStopWords) == [w[..|w| - 1]]
  {
    PluralWords(w);
    NotAStopWord(w);
    NormalizeOnePiece(w, EnStopWords);
  }

  lemma NotAStopWord(w: string)
    requires w == "kubernetes" || w == "microservices" || w == "redis"
    ensures !IsStopWord(EnStopWords, w)
  {
    LowerCaseLetters(w);
    LowerOfLowerWord(w);
  }

  lemma LowerCaseLetters(w: string)
    requires w == "kubernetes" || w == "microservices" || w == "redis"
    ensures w != [] && forall c <- w :: 'a' <= c <= 'z'
  {
  }

  lemma StemNotRecognized(w: string)
    requires w == "kubernetes" || w == "microservices" || w == "redis"
    ensures !Recognizes(w[..|w| - 1])
  {
    var stem := w[..|w| - 1];
    LowerCaseLetters(w);
    assert forall c <- stem :: c in w;
    LowerOfLowerWord(stem);
    StemsOutsideVocabulary();
    assert stem == "redi" || stem == "kubernete" || stem == "microservice";
  }

  lemma StemsOutsideVocabulary()
    ensures "redi" !in Vocabulary && "kubernete" !in Vocabulary && "microservice" !in Vocabulary
  {
  }

  lemma SingleUnrecognizedToken(t: string)
    requires !Recognizes(t)
    ensures ExtractSkills([t]) == []
  {
    assert [t][..0] == [];
  }

  lemma LowerOfLowerWord(w: string)
    requires forall c <- w :: 'a' <= c <= 'z'
    ensures Lower(w) == w
  {
    forall i | 0 <= i < |w| ensures Lower(w)[i] == w[i] {
      assert w[i] in w;
    }
  }
}
