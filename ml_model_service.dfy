/** The similarity-and-level port (`MLModelService`): a trained prediction
    engine when a model file was found at construction, otherwise a
    bag-of-words cosine similarity with fixed level thresholds.

    Square roots are never taken: the fallback similarity is kept as its
    dot product and its two squared magnitudes, and every statement about
    its value is made about its square. */
module MLModelService {
  import opened Strings

  /** The engine's answer (`ResumeJobPairOutput`; its unused `Score` array is not modelled). */
  datatype Prediction = Prediction(predictedLabel: string, cosineSimilarity: real)

  /** The similarity the port reports. `Cosine(dot, norm1Sq, norm2Sq)`
      stands for `dot / (sqrt(norm1Sq) * sqrt(norm2Sq))`, or 0 when either
      magnitude is 0; `Trained(v)` is the engine's value passed through. */
  datatype Similarity =
    | Cosine(dot: real, norm1Sq: real, norm2Sq: real)
    | Trained(value: real)

  /** The square of the reported similarity. */
  function Squared(s: Similarity): real {
    match s
    case Cosine(dot, n1, n2) => if n1 == 0.0 || n2 == 0.0 then 0.0 else dot * dot / (n1 * n2)
    case Trained(v) => v * v
  }

  /** "similarity > threshold", decided without a square root for a cosine value. */
  predicate Exceeds(s: Similarity, threshold: real) {
    match s
    case Cosine(dot, n1, n2) =>
      n1 != 0.0 && n2 != 0.0 && dot * dot > threshold * threshold * (n1 * n2)
    case Trained(v) => v > threshold
  }

  /** The level thresholds on a similarity value: the nested conditional of the fallback path. */
  function LevelFor(similarity: real): (level: string)
    ensures level == "Senior" <==> similarity > 0.7
    ensures level == "Mid" <==> 0.5 < similarity <= 0.7
    ensures level == "Junior" <==> 0.3 < similarity <= 0.5
    ensures level == "Reject" <==> similarity <= 0.3
  {
    if similarity > 0.7 then "Senior"
    else if similarity > 0.5 then "Mid"
    else if similarity > 0.3 then "Junior"
    else "Reject"
  }

  /** The same thresholds applied to a reported similarity. */
  function FallbackLevel(s: Similarity): string {
    if Exceeds(s, 0.7) then "Senior"
    else if Exceeds(s, 0.5) then "Mid"
    else if Exceeds(s, 0.3) then "Junior"
    else "Reject"
  }

  /** The distinct lower-cased words of a text, split on the space character only. */
  function WordBag(text: string): (words: seq<string>)
    ensures forall i, j :: 0 <= i < j < |words| ==> words[i] != words[j]
    ensures forall w <- words :: |w| > 0 && ' ' !in w
    ensures forall w :: w in words <==> w in Split(Lower(text), {' '})
  {
    Distinct(Split(Lower(text), {' '}))
  }

  /** A 0/1 presence vector of `words` over the vocabulary `all`. */
  function Presence(all: seq<string>, words: seq<string>): (v: seq<real>)
    ensures |v| == |all|
  {
    seq(|all|, i requires 0 <= i < |all| => if all[i] in words then 1.0 else 0.0)
  }

  function DotProduct(v1: seq<real>, v2: seq<real>): real
    requires |v1| == |v2|
  {
    if v1 == [] then 0.0 else v1[0] * v2[0] + DotProduct(v1[1..], v2[1..])
  }

  function SumOfSquares(v: seq<real>): real {
    if v == [] then 0.0 else v[0] * v[0] + SumOfSquares(v[1..])
  }

  /** `CalculateCosineSimilarity(text1, text2)`, before the square roots. */
  function CosineSimilarity(text1: string, text2: string): Similarity {
    CosineOfBags(WordBag(text1), WordBag(text2))
  }

  /** The union vocabulary, the two presence vectors, their dot product and
      their squared magnitudes, for two word bags. */
  function CosineOfBags(words1: seq<string>, words2: seq<string>): Similarity {
    var all := Distinct(words1 + words2);
    var vector1 := Presence(all, words1);
    var vector2 := Presence(all, words2);
    Cosine(DotProduct(vector1, vector2), SumOfSquares(vector1), SumOfSquares(vector2))
  }

  function Elements(xs: seq<string>): set<string> {
    set x | x in xs
  }

  lemma {:induction false} DistinctCardinality(xs: seq<string>)
    requires forall i, j :: 0 <= i < j < |xs| ==> xs[i] != xs[j]
    ensures |Elements(xs)| == |xs|
    decreases |xs|
  {
    if xs != [] {
      DistinctCardinality(xs[1..]);
      assert Elements(xs) == {xs[0]} + Elements(xs[1..]);
      assert xs[0] !in Elements(xs[1..]);
    }
  }

  /** Removing the first word of a vocabulary without repeats removes at
      most that word from its intersection with a set. */
  lemma ElementsSplit(all: seq<string>, e: set<string>)
    requires all != [] && all[0] !in all[1..]
    ensures |Elements(all) * e| == (if all[0] in e then 1 else 0) + |Elements(all[1..]) * e|
  {
    var x := all[0];
    var restShared := Elements(all[1..]) * e;
    assert Elements(all) == {x} + Elements(all[1..]);
    if x in e {
      assert Elements(all) * e == {x} + restShared;
      assert x !in restShared;
    } else {
      assert Elements(all) * e == restShared;
    }
  }

  /** Over a vocabulary without repeats, the dot product of two presence
      vectors counts the vocabulary words present in both lists. */
  lemma {:induction false} DotProductCountsShared(all: seq<string>, a: seq<string>, b: seq<string>)
    requires forall i, j :: 0 <= i < j < |all| ==> all[i] != all[j]
    ensures DotProduct(Presence(all, a), Presence(all, b)) == |Elements(all) * (Elements(a) * Elements(b))| as real
    decreases |all|
  {
    if all == [] {
      assert Elements(all) == {};
    } else {
      var rest := all[1..];
      DotProductCountsShared(rest, a, b);
      var va, vb := Presence(all, a), Presence(all, b);
      assert va[1..] == Presence(rest, a);
      assert vb[1..] == Presence(rest, b);
      assert all[0] !in rest;
      ElementsSplit(all, Elements(a) * Elements(b));
    }
  }

  /** Over a vocabulary without repeats, the squared magnitude of a presence
      vector counts the vocabulary words present in the list. */
  lemma {:induction false} SumOfSquaresCountsPresent(all: seq<string>, a: seq<string>)
    requires forall i, j :: 0 <= i < j < |all| ==> all[i] != all[j]
    ensures SumOfSquares(Presence(all, a)) == |Elements(all) * Elements(a)| as real
    decreases |all|
  {
    if all == [] {
      assert Elements(all) == {};
    } else {
      var rest := all[1..];
      SumOfSquaresCountsPresent(rest, a);
      assert Presence(all, a)[1..] == Presence(rest, a);
      assert all[0] !in rest;
      ElementsSplit(all, Elements(a));
    }
  }

  /** The dot product is the number of distinct words the two bags share,
      and each squared magnitude is that bag's number of distinct words. */
  lemma BagCounts(words1: seq<string>, words2: seq<string>)
    requires forall i, j :: 0 <= i < j < |words1| ==> words1[i] != words1[j]
    requires forall i, j :: 0 <= i < j < |words2| ==> words2[i] != words2[j]
    ensures CosineOfBags(words1, words2) ==
              Cosine(|Elements(words1) * Elements(words2)| as real, |words1| as real, |words2| as real)
  {
    var all := Distinct(words1 + words2);
    assert Elements(all) == Elements(words1) + Elements(words2) by {
      assert forall x :: x in all <==> x in words1 + words2;
    }
    DotProductCountsShared(all, words1, words2);
    assert Elements(all) * (Elements(words1) * Elements(words2)) == Elements(words1) * Elements(words2);
    SumOfSquaresCountsPresent(all, words1);
    SumOfSquaresCountsPresent(all, words2);
    assert Elements(all) * Elements(words1) == Elements(words1);
    assert Elements(all) * Elements(words2) == Elements(words2);
    DistinctCardinality(words1);
    DistinctCardinality(words2);
  }

  /** The dot product is the number of distinct words the two texts share,
      and each squared magnitude is that text's number of distinct words. */
  lemma CosineCounts(text1: string, text2: string)
    ensures CosineSimilarity(text1, text2) ==
              Cosine(|Elements(WordBag(text1)) * Elements(WordBag(text2))| as real,
                     |WordBag(text1)| as real, |WordBag(text2)| as real)
  {
    BagCounts(WordBag(text1), WordBag(text2));
  }

  lemma SubsetCardinality(a: set<string>, b: set<string>)
    requires a <= b
    ensures |a| <= |b|
  {
    assert b == a + (b - a);
  }

  predicate NoRepeats(words: seq<string>) {
    forall i, j :: 0 <= i < j < |words| ==> words[i] != words[j]
  }

  /** For two bags without repeats the similarity lies in [0, 1]. */
  lemma BagSimilarityInUnitRange(words1: seq<string>, words2: seq<string>)
    requires NoRepeats(words1) && NoRepeats(words2)
    ensures 0.0 <= Squared(CosineOfBags(words1, words2)) <= 1.0
  {
    BagCounts(words1, words2);
    var e1, e2 := Elements(words1), Elements(words2);
    SubsetCardinality(e1 * e2, e1);
    SubsetCardinality(e1 * e2, e2);
    DistinctCardinality(words1);
    DistinctCardinality(words2);
    CountsInUnitRange(|e1 * e2|, |words1|, |words2|);
  }

  /** A cosine of presence counts, `shared` words out of `n1` and `n2`, lies in [0, 1]. */
  lemma CountsInUnitRange(shared: nat, n1: nat, n2: nat)
    requires shared <= n1 && shared <= n2
    ensures 0.0 <= Squared(Cosine(shared as real, n1 as real, n2 as real)) <= 1.0
  {
    var s, a, b := shared as real, n1 as real, n2 as real;
    if n1 != 0 && n2 != 0 {
      assert a != 0.0 && b != 0.0;
      SquareRatioAtMostOne(s, a, b);
      assert Squared(Cosine(s, a, b)) == s * s / (a * b);
    }
  }

  /** The similarity of two bags without repeats does not depend on their order. */
  lemma BagSimilaritySymmetric(words1: seq<string>, words2: seq<string>)
    requires NoRepeats(words1) && NoRepeats(words2)
    ensures Squared(CosineOfBags(words1, words2)) == Squared(CosineOfBags(words2, words1))
  {
    BagCounts(words1, words2);
    BagCounts(words2, words1);
    var e1, e2 := Elements(words1), Elements(words2);
    assert e1 * e2 == e2 * e1;
    CountsSymmetric(|e1 * e2|, |words1|, |words2|);
  }

  lemma CountsSymmetric(shared: nat, n1: nat, n2: nat)
    ensures Squared(Cosine(shared as real, n1 as real, n2 as real))
         == Squared(Cosine(shared as real, n2 as real, n1 as real))
  {
    var a, b := n1 as real, n2 as real;
    assert a * b == b * a;
  }

  /** Two equal bags without repeats have similarity 1, unless they are empty. */
  lemma BagSimilarityWithItself(words: seq<string>)
    requires NoRepeats(words) && words != []
    ensures Squared(CosineOfBags(words, words)) == 1.0
  {
    BagCounts(words, words);
    var e := Elements(words);
    assert e * e == e;
    DistinctCardinality(words);
    CountsOfItself(|words|);
  }

  lemma CountsOfItself(n: nat)
    requires n > 0
    ensures Squared(Cosine(n as real, n as real, n as real)) == 1.0
  {
    var r := n as real;
    MultiplyPositive(r, r);
    assert Squared(Cosine(r, r, r)) == r * r / (r * r);
  }

  lemma SquareRatioAtMostOne(shared: real, n1: real, n2: real)
    requires 0.0 <= shared <= n1 && shared <= n2 && n1 > 0.0 && n2 > 0.0
    ensures 0.0 <= shared * shared / (n1 * n2) <= 1.0
  {
    var x, y, z := shared * shared, shared * n1, n1 * n2;
    MultiplyMonotone(shared, shared, n1);
    assert x <= y;
    MultiplyMonotone(n1, shared, n2);
    assert y <= z;
    MultiplyPositive(n1, n2);
    MultiplyMonotone(shared, 0.0, shared);
    RatioAtMostOne(x, z);
  }

  lemma RatioAtMostOne(x: real, y: real)
    requires 0.0 <= x <= y && y > 0.0
    ensures 0.0 <= x / y <= 1.0
  {
    DivisionCancels(x, y);
  }

  lemma MultiplyMonotone(k: real, x: real, y: real)
    requires k >= 0.0 && x <= y
    ensures k * x <= k * y
  {
    assert k * y - k * x == k * (y - x);
  }

  lemma MultiplyStrict(k: real, x: real, y: real)
    requires k > 0.0 && x < y
    ensures k * x < k * y
  {
    assert k * y - k * x == k * (y - x);
    MultiplyPositive(k, y - x);
  }

  lemma MultiplyPositive(x: real, y: real)
    requires x > 0.0 && y > 0.0
    ensures x * y > 0.0
  {
  }

  /** The fallback similarity of two texts lies in [0, 1]. */
  lemma CosineInUnitRange(text1: string, text2: string)
    ensures 0.0 <= Squared(CosineSimilarity(text1, text2)) <= 1.0
  {
    BagSimilarityInUnitRange(WordBag(text1), WordBag(text2));
  }

  /** The fallback similarity is symmetric in its two texts. */
  lemma CosineSymmetric(text1: string, text2: string)
    ensures Squared(CosineSimilarity(text1, text2)) == Squared(CosineSimilarity(text2, text1))
  {
    BagSimilaritySymmetric(WordBag(text1), WordBag(text2));
  }

  /** A text with no words has similarity 0 with anything. */
  lemma CosineOfEmptyBagIsZero(text1: string, text2: string)
    requires WordBag(text1) == [] || WordBag(text2) == []
    ensures Squared(CosineSimilarity(text1, text2)) == 0.0
  {
    BagCounts(WordBag(text1), WordBag(text2));
  }

  /** Two texts with the same non-empty word bag have similarity 1. */
  lemma CosineOfSameBagIsOne(text1: string, text2: string)
    requires WordBag(text1) == WordBag(text2) != []
    ensures Squared(CosineSimilarity(text1, text2)) == 1.0
  {
    BagSimilarityWithItself(WordBag(text1));
  }

  /** Comparing squares decides the strict thresholds: for the non-negative
      value `s` whose square is reported, `s > t` exactly when `Exceeds`. */
  lemma ExceedsIsThreshold(c: Similarity, s: real, t: real)
    requires c.Cosine? ==> c.norm1Sq >= 0.0 && c.norm2Sq >= 0.0
    requires s >= 0.0 && t >= 0.0 && s * s == Squared(c)
    requires c.Trained? ==> c.value == s
    ensures Exceeds(c, t) <==> s > t
  {
    match c
    case Trained(_) =>
    case Cosine(dot, n1, n2) =>
      SquaresOrder(s, t);
      if n1 != 0.0 && n2 != 0.0 {
        var n := n1 * n2;
        MultiplyPositive(n1, n2);
        assert s * s == dot * dot / n;
        DivisionCancels(dot * dot, n);
        ScaledCompare(s * s, t * t, n);
      } else if s > 0.0 {
        MultiplyPositive(s, s);
      }
  }

  lemma SquaresOrder(s: real, t: real)
    requires s >= 0.0 && t >= 0.0
    ensures s > t <==> s * s > t * t
  {
    if s > t {
      assert s * s - t * t == (s - t) * (s + t);
      MultiplyPositive(s - t, s + t);
    } else {
      assert t * t - s * s == (t - s) * (t + s);
      MultiplyMonotone(t + s, 0.0, t - s);
    }
  }

  lemma ScaledCompare(x: real, y: real, n: real)
    requires n > 0.0
    ensures x > y <==> x * n > y * n
  {
    if x > y {
      MultiplyStrict(n, y, x);
    } else {
      MultiplyMonotone(n, x, y);
    }
  }

  lemma DivisionCancels(x: real, n: real)
    requires n != 0.0
    ensures x / n * n == x
  {
  }

  /** The fallback's squared comparisons give the level the thresholds give
      to the similarity value itself. */
  lemma FallbackLevelMatchesThresholds(text1: string, text2: string, s: real)
    requires s >= 0.0 && s * s == Squared(CosineSimilarity(text1, text2))
    ensures FallbackLevel(CosineSimilarity(text1, text2)) == LevelFor(s)
  {
    var c := CosineSimilarity(text1, text2);
    CosineCounts(text1, text2);
    ExceedsIsThreshold(c, s, 0.7);
    ExceedsIsThreshold(c, s, 0.5);
    ExceedsIsThreshold(c, s, 0.3);
  }

  /** The similarity the fallback reports, the square root of its squared
      value, lies in [0, 1]. */
  lemma FallbackValueInUnitRange(text1: string, text2: string, s: real)
    requires s >= 0.0 && s * s == Squared(CosineSimilarity(text1, text2))
    ensures s <= 1.0
  {
    CosineInUnitRange(text1, text2);
    SquaresOrder(s, 1.0);
  }

  /** The engine's presence is decided once, at construction. */
  class MLModelService {
    /** `_predictionEngine`: present exactly when the model file existed. */
    const predictionEngine: Option<(string, string) -> Prediction>

    /** `engine` stands for the model the file would load; the existence
        check itself is the caller's `modelFileExists`. */
    constructor (modelFileExists: bool, engine: (string, string) -> Prediction)
      ensures predictionEngine.Some? <==> modelFileExists
      ensures modelFileExists ==> predictionEngine.value == engine
    {
      predictionEngine := if modelFileExists then Some(engine) else None;
    }

    /** `ScoreAndPredictAsync`: the fallback path exactly when there is no
        engine, and the engine's label and similarity passed through otherwise. */
    function ScoreAndPredict(resumeText: string, jobText: string): (r: (Similarity, string))
      ensures r.0.Cosine? <==> predictionEngine.None?
      ensures predictionEngine.None? ==>
                r.0 == CosineSimilarity(resumeText, jobText) && r.1 == FallbackLevel(r.0)
      ensures predictionEngine.Some? ==>
                var p := predictionEngine.value(resumeText, jobText);
                r.0 == Trained(p.cosineSimilarity) && r.1 == p.predictedLabel
    {
      match predictionEngine
      case None =>
        var similarity := CosineSimilarity(resumeText, jobText);
        (similarity, FallbackLevel(similarity))
      case Some(engine) =>
        var prediction := engine(resumeText, jobText);
        (Trained(prediction.cosineSimilarity), prediction.predictedLabel)
    }
  }
}
