/** The domain entities the analysis fills in: a resume with its skills,
    work experience and education, a job description with its required
    skills, and the skill itself. The skill lists are appended to in place. */
module Entities {
  import opened Strings

  /** An entity identifier. `Guid.NewGuid()` is a source of randomness, so
      every constructor receives the new identifier as a parameter. */
  datatype Guid = Guid(value: nat)

  /** `Skill`: its name, category and weight have private setters and are
      only set by the constructor. Its identifier is the object's identity. */
  class Skill {
    const name: string
    const category: string
    const weight: int

    constructor (name: string, category: string, weight: int := 1)
      ensures this.name == name && this.category == category && this.weight == weight
    {
      this.name := name;
      this.category := category;
      this.weight := weight;
    }
  }

  /** The names of a list of skills, in order. */
  function Names(skills: seq<Skill>): (names: seq<string>)
    ensures |names| == |skills|
    ensures forall i :: 0 <= i < |skills| ==> names[i] == skills[i].name
  {
    seq(|skills|, i requires 0 <= i < |skills| => skills[i].name)
  }

  /** Some name in `names` equals `name` ignoring case. */
  predicate HasName(names: seq<string>, name: string) {
    exists n <- names :: EqualsIgnoreCase(n, name)
  }

  /** The list `AddSkill` leaves behind: unchanged when a skill of the same
      name ignoring case is already there, the skill appended otherwise. */
  function WithSkill(skills: seq<Skill>, skill: Skill): seq<Skill> {
    if HasName(Names(skills), skill.name) then skills else skills + [skill]
  }

  /** The same step on names alone. */
  function WithName(names: seq<string>, name: string): seq<string> {
    if HasName(names, name) then names else names + [name]
  }

  /** Adding names one at a time, in order, each through `WithName`. */
  function MergeNames(names: seq<string>, added: seq<string>): seq<string>
    decreases |added|
  {
    if added == [] then names
    else WithName(MergeNames(names, added[..|added| - 1]), added[|added| - 1])
  }

  /** The names after `WithSkill` are the names after `WithName`. */
  lemma NamesWithSkill(skills: seq<Skill>, skill: Skill)
    ensures Names(WithSkill(skills, skill)) == WithName(Names(skills), skill.name)
  {
    if !HasName(Names(skills), skill.name) {
      assert Names(skills + [skill]) == Names(skills) + [skill.name];
    }
  }

  /** `HasName` is membership of the lower-cased name among the lower-cased names. */
  lemma HasNameIsKeyMembership(names: seq<string>, name: string)
    ensures HasName(names, name) <==> Lower(name) in Keys(names)
  {
    if Lower(name) in Keys(names) {
      var i :| 0 <= i < |names| && Keys(names)[i] == Lower(name);
      assert EqualsIgnoreCase(names[i], name);
    }
  }

  /** `WithName` is a no-op exactly on a clash ignoring case, appends the
      name last otherwise, and keeps the names distinct ignoring case. */
  lemma WithNameKeepsDistinct(names: seq<string>, name: string)
    requires DistinctIgnoringCase(names)
    ensures HasName(names, name) ==> WithName(names, name) == names
    ensures !HasName(names, name) ==>
              && |WithName(names, name)| == |names| + 1
              && WithName(names, name)[..|names|] == names
              && WithName(names, name)[|names|] == name
    ensures DistinctIgnoringCase(WithName(names, name))
    ensures HasName(WithName(names, name), name)
  {
    if !HasName(names, name) {
      var r := names + [name];
      forall i, j | 0 <= i < j < |r| ensures Lower(r[i]) != Lower(r[j]) {
        if j == |names| {
          assert r[i] in names;
        }
      }
      assert r[|names|] in r;
    } else {
      var n :| n in names && EqualsIgnoreCase(n, name);
    }
  }

  /** Merging keeps what was there as a prefix, keeps the names distinct
      ignoring case, and ends with every added name present ignoring case. */
  lemma {:induction false} MergeNamesKeepsDistinct(names: seq<string>, added: seq<string>)
    requires DistinctIgnoringCase(names)
    ensures |names| <= |MergeNames(names, added)| <= |names| + |added|
    ensures MergeNames(names, added)[..|names|] == names
    ensures DistinctIgnoringCase(MergeNames(names, added))
    ensures forall a <- added :: HasName(MergeNames(names, added), a)
    decreases |added|
  {
    if added != [] {
      var init, last := added[..|added| - 1], added[|added| - 1];
      MergeNamesKeepsDistinct(names, init);
      var prior := MergeNames(names, init);
      WithNameKeepsDistinct(prior, last);
      var r := WithName(prior, last);
      assert r[..|prior|] == prior;
      assert r[..|names|] == prior[..|names|];
      forall a <- added ensures HasName(r, a) {
        if a != last {
          assert a in init;
          var n :| n in prior && EqualsIgnoreCase(n, a);
          assert n in r;
        }
      }
    }
  }

  /** Names that are distinct ignoring case, and clash with nothing already
      there, are all appended, in order. */
  lemma {:induction false} MergeNamesOfNewNames(names: seq<string>, added: seq<string>)
    requires DistinctIgnoringCase(names + added)
    ensures MergeNames(names, added) == names + added
    decreases |added|
  {
    if added != [] {
      var init, last := added[..|added| - 1], added[|added| - 1];
      assert names + added == (names + init) + [last];
      assert DistinctIgnoringCase(names + init) by {
        forall i, j | 0 <= i < j < |names + init|
          ensures Lower((names + init)[i]) != Lower((names + init)[j])
        {
          assert (names + init)[i] == (names + added)[i];
          assert (names + init)[j] == (names + added)[j];
        }
      }
      MergeNamesOfNewNames(names, init);
      assert !HasName(names + init, last) by {
        forall n <- names + init ensures !EqualsIgnoreCase(n, last) {
          var k :| 0 <= k < |names + init| && (names + init)[k] == n;
          assert (names + added)[k] == n;
          assert (names + added)[|names + added| - 1] == last;
        }
      }
    }
  }

  /** Skill names are pairwise distinct ignoring case: the invariant
      `AddSkill` keeps. */
  predicate NamesDistinct(skills: seq<Skill>) {
    DistinctIgnoringCase(Names(skills))
  }

  /** Adding one skill: no-op on a clash ignoring case, otherwise the skill
      goes last and everything before it is kept; the invariant holds after. */
  lemma WithSkillKeepsNamesDistinct(skills: seq<Skill>, skill: Skill)
    requires NamesDistinct(skills)
    ensures HasName(Names(skills), skill.name) ==> WithSkill(skills, skill) == skills
    ensures !HasName(Names(skills), skill.name) ==>
              && |WithSkill(skills, skill)| == |skills| + 1
              && WithSkill(skills, skill)[..|skills|] == skills
              && WithSkill(skills, skill)[|skills|] == skill
    ensures NamesDistinct(WithSkill(skills, skill))
  {
    NamesWithSkill(skills, skill);
    WithNameKeepsDistinct(Names(skills), skill.name);
    if !HasName(Names(skills), skill.name) {
      assert (skills + [skill])[..|skills|] == skills;
    }
  }

  /** `WorkExperience`: a record of editable strings with its own identifier. */
  class WorkExperience {
    const id: Guid
    var company: string
    var role: string
    var location: string
    var startDate: string
    var endDate: string
    var responsibilities: string

    constructor (id: Guid)
      ensures this.id == id
      ensures company == "" && role == "" && location == ""
      ensures startDate == "" && endDate == "" && responsibilities == ""
    {
      this.id := id;
      company, role, location := "", "", "";
      startDate, endDate, responsibilities := "", "", "";
    }
  }

  /** `Education`: a record of editable strings with its own identifier. */
  class Education {
    const id: Guid
    var school: string
    var degree: string
    var fieldOfStudy: string
    var startDate: string
    var endDate: string

    constructor (id: Guid)
      ensures this.id == id
      ensures school == "" && degree == "" && fieldOfStudy == ""
      ensures startDate == "" && endDate == ""
    {
      this.id := id;
      school, degree, fieldOfStudy := "", "", "";
      startDate, endDate := "", "";
    }
  }

  /** `Resume`. The identifier, raw text and language have private setters
      and are only set by the constructor, so they are constants here; the
      other strings have public setters. */
  class Resume {
    const id: Guid
    var candidateName: string
    var jobTitle: string
    var email: string
    var phone: string
    var city: string
    var linkedIn: string
    var website: string
    var profilePhotoUrl: string
    const rawText: string
    const language: string
    var workExperiences: seq<WorkExperience>
    var education: seq<Education>
    var skills: seq<Skill>

    /** Skill names are pairwise distinct ignoring case. */
    ghost predicate Valid()
      reads this
    {
      NamesDistinct(skills)
    }

    constructor (id: Guid, candidateName: string, email: string, rawText: string, language: string)
      ensures this.id == id && this.candidateName == candidateName && this.email == email
      ensures this.rawText == rawText && this.language == language
      ensures jobTitle == "" && phone == "" && city == "" && linkedIn == ""
      ensures website == "" && profilePhotoUrl == ""
      ensures workExperiences == [] && education == [] && skills == []
      ensures Valid()
    {
      this.id := id;
      this.candidateName := candidateName;
      this.email := email;
      this.rawText := rawText;
      this.language := language;
      jobTitle, phone, city, linkedIn := "", "", "", "";
      website, profilePhotoUrl := "", "";
      workExperiences, education, skills := [], [], [];
    }

    /** `AddSkill`: ignored when a skill of the same name ignoring case is
        already there, appended last otherwise. Only the skill list changes. */
    method AddSkill(skill: Skill)
      modifies this`skills
      ensures skills == WithSkill(old(skills), skill)
      ensures old(Valid()) ==> Valid()
    {
      if HasName(Names(skills), skill.name) {
        return;
      }
      skills := skills + [skill];
      if old(Valid()) {
        WithSkillKeepsNamesDistinct(old(skills), skill);
      }
    }

    /** `AddWorkExperience`: always appended, no de-duplication. */
    method AddWorkExperience(experience: WorkExperience)
      modifies this`workExperiences
      ensures workExperiences == old(workExperiences) + [experience]
    {
      workExperiences := workExperiences + [experience];
    }

    /** `AddEducation`: always appended, no de-duplication. */
    method AddEducation(entry: Education)
      modifies this`education
      ensures education == old(education) + [entry]
    {
      education := education + [entry];
    }
  }

  /** `JobDescription`: every field but the required skills is only set by the constructor. */
  class JobDescription {
    const id: Guid
    const title: string
    const descriptionText: string
    const language: string
    var requiredSkills: seq<Skill>

    constructor (id: Guid, title: string, descriptionText: string, language: string)
      ensures this.id == id && this.title == title
      ensures this.descriptionText == descriptionText && this.language == language
      ensures requiredSkills == []
    {
      this.id := id;
      this.title := title;
      this.descriptionText := descriptionText;
      this.language := language;
      requiredSkills := [];
    }

    /** `AddRequiredSkill`: always appended, duplicates included. */
    method AddRequiredSkill(skill: Skill)
      modifies this`requiredSkills
      ensures requiredSkills == old(requiredSkills) + [skill]
    {
      requiredSkills := requiredSkills + [skill];
    }
  }
}
