/** The matching step of the analysis engine: LINQ `Intersect` and
    `Except` under the ignore-case comparer, which split the job's skills
    into those the resume has and those it lacks. */
module SkillMatching {
  import opened Strings
  import opened Entities

  /** The elements of `first` whose presence in `second`, ignoring case, is
      `present`, each kept once (its first occurrence), in the order of
      `first`. With `present` true this is LINQ `Intersect` under the
      ignore-case comparer; with `present` false it is `Except`. */
  function SelectByPresence(first: seq<string>, second: seq<string>, present: bool): (r: seq<string>)
    ensures forall x <- r :: x in first && HasName(second, x) == present
    ensures DistinctIgnoringCase(r)
    ensures forall x <- first :: HasName(second, x) == present ==> HasName(r, x)
    decreases |first|
  {
    if first == [] then []
    else
      var init, x := first[..|first| - 1], first[|first| - 1];
      assert first == init + [x];
      var prior := SelectByPresence(init, second, present);
      WithNameKeepsDistinct(prior, x);
      if HasName(second, x) == present then
        assert forall y <- init :: HasName(second, y) == present ==> HasName(WithName(prior, x), y) by {
          forall y <- init | HasName(second, y) == present ensures HasName(WithName(prior, x), y) {
            var n :| n in prior && EqualsIgnoreCase(n, y);
            assert n in WithName(prior, x);
          }
        }
        WithName(prior, x)
      else
        prior
  }

  /** `jobSkills.Intersect(resumeSkills, StringComparer.OrdinalIgnoreCase)`. */
  function Intersect(first: seq<string>, second: seq<string>): seq<string> {
    SelectByPresence(first, second, true)
  }

  /** `jobSkills.Except(resumeSkills, StringComparer.OrdinalIgnoreCase)`. */
  function Except(first: seq<string>, second: seq<string>): seq<string> {
    SelectByPresence(first, second, false)
  }

  /** The plain filter: the elements of `xs` whose presence in `second`,
      ignoring case, is `present`, in order, duplicates kept. */
  function Where(xs: seq<string>, second: seq<string>, present: bool): seq<string>
    decreases |xs|
  {
    if xs == [] then []
    else
      var init, x := xs[..|xs| - 1], xs[|xs| - 1];
      Where(init, second, present) + (if HasName(second, x) == present then [x] else [])
  }

  /** Over a list that is already distinct ignoring case, `Intersect` and
      `Except` are plain filters: they keep the list's order. */
  lemma {:induction false} SelectOfDistinctIsWhere(first: seq<string>, second: seq<string>, present: bool)
    requires DistinctIgnoringCase(first)
    ensures SelectByPresence(first, second, present) == Where(first, second, present)
    ensures forall x <- Where(first, second, present) :: x in first
    decreases |first|
  {
    if first != [] {
      var init, x := first[..|first| - 1], first[|first| - 1];
      assert first == init + [x];
      assert DistinctIgnoringCase(init) by {
        forall i, j | 0 <= i < j < |init| ensures Lower(init[i]) != Lower(init[j]) {
          assert init[i] == first[i] && init[j] == first[j];
        }
      }
      SelectOfDistinctIsWhere(init, second, present);
      var prior := SelectByPresence(init, second, present);
      if HasName(second, x) == present {
        assert !HasName(prior, x) by {
          forall n <- prior ensures !EqualsIgnoreCase(n, x) {
            var k :| 0 <= k < |init| && init[k] == n;
            assert first[k] == n && first[|first| - 1] == x;
          }
        }
      }
    }
  }

  /** The two filters split a list: together they hold every element once. */
  lemma {:induction false} WherePartition(xs: seq<string>, second: seq<string>)
    ensures multiset(Where(xs, second, true)) + multiset(Where(xs, second, false)) == multiset(xs)
    ensures |Where(xs, second, true)| + |Where(xs, second, false)| == |xs|
    decreases |xs|
  {
    if xs != [] {
      var init, x := xs[..|xs| - 1], xs[|xs| - 1];
      assert xs == init + [x];
      WherePartition(init, second);
    }
  }

  /** `matched` and `missing` partition the job's skills: every job skill
      lands in exactly one of them, each keeps the job's order, everything
      matched is among the resume's skills and nothing missing is. */
  lemma MatchedMissingPartition(jobSkills: seq<string>, resumeSkills: seq<string>)
    requires DistinctIgnoringCase(jobSkills)
    ensures Intersect(jobSkills, resumeSkills) == Where(jobSkills, resumeSkills, true)
    ensures Except(jobSkills, resumeSkills) == Where(jobSkills, resumeSkills, false)
    ensures multiset(Intersect(jobSkills, resumeSkills)) + multiset(Except(jobSkills, resumeSkills))
         == multiset(jobSkills)
    ensures forall x <- Intersect(jobSkills, resumeSkills) :: HasName(resumeSkills, x)
    ensures forall x <- Except(jobSkills, resumeSkills) :: !HasName(resumeSkills, x)
  {
    SelectOfDistinctIsWhere(jobSkills, resumeSkills, true);
    SelectOfDistinctIsWhere(jobSkills, resumeSkills, false);
    WherePartition(jobSkills, resumeSkills);
  }
}
