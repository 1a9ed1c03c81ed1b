/** The skill dictionary (`SkillDictionary`): a fixed, case-insensitive
    vocabulary and the extraction of recognised skills from a token list. */
module SkillDictionary {
  import opened Strings

  /** The vocabulary the constructor puts into the readonly `_skills` set.
      It is a module constant: nothing can change it after it is built.
      Every entry is lower case, so a case-insensitive lookup is a lookup
      of the lower-cased token. */
  const Vocabulary: set<string> :=
    {"c#", "dotnet", ".net", "asp.net", "aspnet", "react", "typescript", "javascript",
     "sql", "azure", "aws", "docker", "kubernetes", "ml.net", "python", "nlp", "tensorflow",
     "git", "jira", "scrum", "agile", "node.js", "angular", "vue", "mongodb", "postgresql",
     "mysql", "redis", "elasticsearch", "kafka", "rabbitmq", "microservices", "rest", "graphql"}

  /** `_skills.Contains(token)` under `StringComparer.OrdinalIgnoreCase`. */
  predicate Recognizes(token: string) {
    Lower(token) in Vocabulary
  }

  /** `ExtractSkills(tokens)`: the recognised tokens, keeping the first of
      each group of tokens that are equal ignoring case, in input order. */
  function ExtractSkills(tokens: seq<string>): (skills: seq<string>)
    ensures forall s <- skills :: Recognizes(s) && s in tokens
    ensures DistinctIgnoringCase(skills)
    ensures forall t <- tokens :: Recognizes(t) ==> Lower(t) in Keys(skills)
    decreases |tokens|
  {
    if tokens == [] then []
    else
      var init := tokens[..|tokens| - 1];
      var t := tokens[|tokens| - 1];
      var prior := ExtractSkills(init);
      assert tokens == init + [t];
      if Recognizes(t) && Lower(t) !in Keys(prior) then
        assert Keys(prior + [t]) == Keys(prior) + [Lower(t)];
        prior + [t]
      else
        prior
  }

  /** Position of the first token equal to `key` ignoring case (`|tokens|` if none). */
  function FirstIndex(tokens: seq<string>, key: string): (k: nat)
    ensures k <= |tokens|
    ensures k < |tokens| ==> Lower(tokens[k]) == Lower(key)
    ensures forall i :: 0 <= i < k ==> Lower(tokens[i]) != Lower(key)
  {
    if tokens == [] then 0
    else if Lower(tokens[0]) == Lower(key) then 0
    else 1 + FirstIndex(tokens[1..], key)
  }

  lemma {:induction false} FirstIndexExtend(tokens: seq<string>, t: string, key: string)
    ensures FirstIndex(tokens + [t], key) ==
              if FirstIndex(tokens, key) < |tokens| then FirstIndex(tokens, key) else
              if Lower(t) == Lower(key) then |tokens| else |tokens| + 1
    decreases |tokens|
  {
    if tokens != [] {
      assert (tokens + [t])[1..] == tokens[1..] + [t];
      FirstIndexExtend(tokens[1..], t, key);
    }
  }

  /** Every skill is the token at which its case-insensitive group first
      appears in `tokens`, and the skills come in the order of those first
      appearances. */
  predicate InFirstSeenOrder(tokens: seq<string>, skills: seq<string>) {
    && (forall i :: 0 <= i < |skills| ==>
          FirstIndex(tokens, skills[i]) < |tokens| && tokens[FirstIndex(tokens, skills[i])] == skills[i])
    && (forall i, j :: 0 <= i < j < |skills| ==> FirstIndex(tokens, skills[i]) < FirstIndex(tokens, skills[j]))
  }

  /** Extraction over a list with one more token at the end. */
  lemma ExtractSkillsSnoc(init: seq<string>, t: string)
    ensures ExtractSkills(init + [t]) ==
              if Recognizes(t) && Lower(t) !in Keys(ExtractSkills(init))
              then ExtractSkills(init) + [t] else ExtractSkills(init)
  {
    assert (init + [t])[..|init|] == init;
  }

  /** Output order is the order of first occurrence in the input. */
  lemma {:induction false} ExtractSkillsFirstSeen(tokens: seq<string>)
    ensures InFirstSeenOrder(tokens, ExtractSkills(tokens))
    decreases |tokens|
  {
    if tokens != [] {
      var init := tokens[..|tokens| - 1];
      var t := tokens[|tokens| - 1];
      assert tokens == init + [t];
      ExtractSkillsFirstSeen(init);
      FirstSeenExtend(init, t);
    }
  }

  lemma FirstSeenExtend(init: seq<string>, t: string)
    requires InFirstSeenOrder(init, ExtractSkills(init))
    ensures InFirstSeenOrder(init + [t], ExtractSkills(init + [t]))
  {
    var prior := ExtractSkills(init);
    ExtractSkillsSnoc(init, t);
    FirstSeenKeptOnExtend(init, t, prior);
    if Recognizes(t) && Lower(t) !in Keys(prior) {
      NewSkillFirstSeen(init, t);
      FirstSeenAppend(init + [t], prior, t);
    }
  }

  /** One more token at the end leaves the first appearances of earlier skills where they were. */
  lemma FirstSeenKeptOnExtend(init: seq<string>, t: string, skills: seq<string>)
    requires InFirstSeenOrder(init, skills)
    ensures InFirstSeenOrder(init + [t], skills)
    ensures forall i :: 0 <= i < |skills| ==> FirstIndex(init + [t], skills[i]) < |init|
  {
    var tokens := init + [t];
    forall i | 0 <= i < |skills|
      ensures FirstIndex(tokens, skills[i]) == FirstIndex(init, skills[i]) < |init|
      ensures tokens[FirstIndex(tokens, skills[i])] == skills[i]
    {
      FirstIndexExtend(init, t, skills[i]);
    }
  }

  /** A skill first seen after every earlier skill can be appended in order. */
  lemma FirstSeenAppend(tokens: seq<string>, skills: seq<string>, t: string)
    requires InFirstSeenOrder(tokens, skills)
    requires FirstIndex(tokens, t) < |tokens| && tokens[FirstIndex(tokens, t)] == t
    requires forall i :: 0 <= i < |skills| ==> FirstIndex(tokens, skills[i]) < FirstIndex(tokens, t)
    ensures InFirstSeenOrder(tokens, skills + [t])
  {
    var r := skills + [t];
    forall i | 0 <= i < |r|
      ensures FirstIndex(tokens, r[i]) < |tokens| && tokens[FirstIndex(tokens, r[i])] == r[i]
    {
      if i < |skills| {
        assert r[i] == skills[i];
      }
    }
    forall i, j | 0 <= i < j < |r| ensures FirstIndex(tokens, r[i]) < FirstIndex(tokens, r[j]) {
      assert r[i] == skills[i];
      if j < |skills| {
        assert r[j] == skills[j];
      }
    }
  }

  /** A token that extraction appends has not been seen before, ignoring case. */
  lemma NewSkillFirstSeen(init: seq<string>, t: string)
    requires Recognizes(t) && Lower(t) !in Keys(ExtractSkills(init))
    ensures FirstIndex(init + [t], t) == |init|
  {
    NotSeenBefore(init, t);
    FirstIndexExtend(init, t, t);
  }

  /** A recognised token whose key extraction has not produced appears
      nowhere in the tokens, ignoring case. */
  lemma NotSeenBefore(tokens: seq<string>, t: string)
    requires Recognizes(t) && Lower(t) !in Keys(ExtractSkills(tokens))
    ensures FirstIndex(tokens, t) == |tokens|
  {
    var k := FirstIndex(tokens, t);
    if k < |tokens| {
      var u := tokens[k];
      assert u in tokens && Recognizes(u);
    }
  }

  /** A list of recognised skills that are distinct ignoring case is its own extraction. */
  lemma {:induction false} ExtractSkillsKeepsDistinctSkills(xs: seq<string>)
    requires forall x <- xs :: Recognizes(x)
    requires DistinctIgnoringCase(xs)
    ensures ExtractSkills(xs) == xs
    decreases |xs|
  {
    if xs != [] {
      var init := xs[..|xs| - 1];
      var x := xs[|xs| - 1];
      assert xs == init + [x];
      ExtractSkillsKeepsDistinctSkills(init);
      assert Lower(x) !in Keys(init);
    }
  }

  /** Extraction is idempotent: extracting from its own output returns that output. */
  lemma ExtractSkillsIdempotent(tokens: seq<string>)
    ensures ExtractSkills(ExtractSkills(tokens)) == ExtractSkills(tokens)
  {
    ExtractSkillsKeepsDistinctSkills(ExtractSkills(tokens));
  }
}
