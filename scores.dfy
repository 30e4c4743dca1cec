/**
 * Scoring pieces that both variants of `calculate_match_score` share: the
 * normalised skill sets, the matched-over-total percentage with its vacuous
 * 100, the bachelor/master degree families and the truncated weighted total.
 */
module Scores {
  import opened Texts
  import opened Records

  /** `s.lower().strip()` */
  function NormalizeSkill(s: string): string {
    Trim(Lower(s))
  }

  /** `set(s.lower().strip() for s in skills if s)`: the emptiness filter looks at the
      raw string, so a whitespace-only skill survives as "". */
  function SkillSet(skills: seq<string>): set<string> {
    if |skills| == 0 then {}
    else
      var x := skills[|skills| - 1];
      if x == "" then SkillSet(skills[..|skills| - 1])
      else SkillSet(skills[..|skills| - 1]) + {NormalizeSkill(x)}
  }

  /** The skill set holds the normal form of every non-empty listed skill, and nothing else. */
  lemma {:induction false} SkillSetMembers(skills: seq<string>)
    ensures forall s :: s in skills && s != "" ==> NormalizeSkill(s) in SkillSet(skills)
    ensures forall t :: t in SkillSet(skills) ==> exists s :: s in skills && s != "" && NormalizeSkill(s) == t
  {
    if |skills| > 0 {
      var front := skills[..|skills| - 1];
      SkillSetMembers(front);
      assert skills == front + [skills[|skills| - 1]];
    }
  }

  /** `(matched / total) * 100.0`, or 100.0 when there is nothing to match. */
  function Percent(matched: nat, total: nat): (r: real)
    ensures total == 0 ==> r == 100.0
    ensures 0.0 <= r
    ensures matched <= total ==> r <= 100.0
    ensures total > 0 ==> (r == 100.0 <==> matched == total)
  {
    if total == 0 then 100.0 else (matched as real / total as real) * 100.0
  }

  /** The skill sub-score: the share of the required skill set the candidate has. */
  function SkillScore(cvSkills: set<string>, jdSkills: set<string>): (r: real)
    ensures 0.0 <= r <= 100.0
    ensures jdSkills == {} ==> r == 100.0
    ensures r == 100.0 <==> jdSkills <= cvSkills
    ensures jdSkills != {} ==> r * |jdSkills| as real == |cvSkills * jdSkills| as real * 100.0
  {
    SubsetCard(cvSkills * jdSkills, jdSkills);
    assert jdSkills <= cvSkills <==> cvSkills * jdSkills == jdSkills;
    Percent(|cvSkills * jdSkills|, |jdSkills|)
  }

  /** A subset is no larger, and a proper subset is strictly smaller. */
  lemma SubsetCard<T>(a: set<T>, b: set<T>)
    requires a <= b
    ensures |a| <= |b|
    ensures |a| == |b| ==> a == b
  {
    assert b == a + (b - a);
    assert a * (b - a) == {};
    if a != b {
      var x :| x in b && x !in a;
      assert x in b - a;
    }
  }

  /** `" ".join(f"{degree} {school}" for each entry).lower()`: the education haystack. */
  function EducationText(education: seq<Education>): string {
    Lower(JoinSpace(seq(|education|, i requires 0 <= i < |education| => education[i].degree + " " + education[i].school)))
  }

  /** A requirement found in one entry's degree is found in the education haystack. */
  lemma DegreeInEducationText(needle: string, education: seq<Education>, k: nat)
    requires k < |education|
    requires Contains(needle, Lower(education[k].degree))
    ensures Contains(needle, EducationText(education))
  {
    var parts := seq(|education|, i requires 0 <= i < |education| => education[i].degree + " " + education[i].school);
    JoinSpaceContainsPart(parts, k);
    ContainsItself(education[k].degree);
    ContainsInLeft(education[k].degree, education[k].degree, " " + education[k].school);
    assert parts[k] == education[k].degree + (" " + education[k].school);
    ContainsTransitive(education[k].degree, parts[k], JoinSpace(parts));
    ContainsLower(education[k].degree, JoinSpace(parts));
    ContainsTransitive(needle, Lower(education[k].degree), EducationText(education));
  }

  /** Any of "bachelor", "bs", "b.s" occurs in `t`. */
  predicate MentionsBachelor(t: string) {
    Contains("bachelor", t) || Contains("bs", t) || Contains("b.s", t)
  }

  /** Any of "master", "ms", "m.s" occurs in `t`. */
  predicate MentionsMaster(t: string) {
    Contains("master", t) || Contains("ms", t) || Contains("m.s", t)
  }

  /** The degree-family fallback: requirement and education text name the same degree level. */
  predicate DegreeFamilyMatch(requirement: string, educationText: string) {
    (MentionsBachelor(requirement) && MentionsBachelor(educationText))
    || (MentionsMaster(requirement) && MentionsMaster(educationText))
  }

  const SkillWeight: real := 0.70
  const QualificationWeight: real := 0.20
  const ExperienceWeight: real := 0.10

  /** Python's `int(x)` on a number: truncation toward zero. */
  function Truncate(x: real): (n: int)
    ensures 0.0 <= x ==> 0 <= n && n as real <= x < n as real + 1.0
    ensures x < 0.0 ==> n <= 0 && n as real - 1.0 < x <= n as real
  {
    if 0.0 <= x then x.Floor else -((-x).Floor)
  }

  function WeightedSum(skill: real, qual: real, exp: real): real {
    skill * SkillWeight + qual * QualificationWeight + exp * ExperienceWeight
  }

  /** `int(skill * 0.70 + qual * 0.20 + exp * 0.10)`: the truncated weighted sum. */
  function TotalScore(skill: real, qual: real, exp: real): (t: int)
    ensures 0.0 <= skill <= 100.0 && 0.0 <= qual <= 100.0 && 0.0 <= exp <= 100.0 ==>
      0 <= t <= 100 && t as real <= WeightedSum(skill, qual, exp) < t as real + 1.0
  {
    Truncate(WeightedSum(skill, qual, exp))
  }

  // ---------------------------------------------------------------------------
  // Properties of the shared scoring steps

  /** Normalising twice is normalising once. */
  lemma NormalizeIdempotent(s: string)
    ensures NormalizeSkill(NormalizeSkill(s)) == NormalizeSkill(s)
  {
    var l := Lower(s);
    TrimStartLower(l);
    TrimEndLower(TrimStart(l));
    LowerIdempotent(s);
    LowerIdempotent(TrimStart(l));
    assert Lower(Trim(l)) == Trim(Lower(l));
    TrimIdempotent(l);
  }

  lemma NormalizePythonSpace()
    ensures SkillSet(["Python "]) == {"python"}
  {
    SkillSetSingleton("Python ");
    NormalizePythonSpaceSkill();
  }

  lemma NormalizePythonSpaceSkill()
    ensures NormalizeSkill("Python ") == "python"
  {
    LowerPythonSpace();
    TrimPythonSpace();
  }

  /** A one-skill list gives the singleton of its normal form, if the skill is not empty. */
  lemma SkillSetSingleton(x: string)
    requires x != ""
    ensures SkillSet([x]) == {NormalizeSkill(x)}
  {
    SkillSetSnoc([], x);
    assert [] + [x] == [x];
  }

  lemma LowerPythonSpace()
    ensures Lower("Python ") == "python "
  {
    var l := Lower("Python ");
    assert l[0] == 'p';
    assert forall k :: 1 <= k < 7 ==> l[k] == "Python "[k];
  }

  lemma TrimPythonSpace()
    ensures Trim("python ") == "python"
  {
    assert TrimStart("python ") == "python ";
    assert "python "[..6] == "python";
    assert TrimEnd("python") == "python";
  }

  lemma NormalizePython()
    ensures SkillSet(["python"]) == {"python"}
  {
    assert NormalizeSkill("python") == "python";
    SkillSetSingleton("python");
  }

  /** "Python " and "python" name the same normalised skill. */
  lemma SkillNormalizationExample()
    ensures SkillSet(["Python "]) * SkillSet(["python"]) == {"python"}
  {
    NormalizePythonSpace();
    NormalizePython();
  }

  /** The emptiness filter runs before `strip`, so a blank skill becomes "". */
  lemma BlankSkillSurvives()
    ensures SkillSet([" "]) == {""}
    ensures SkillSet([""]) == {}
  {
    assert Lower(" ") == " ";
    assert NormalizeSkill(" ") == "";
  }

  /** Skills equal up to case and outer whitespace collapse into one. */
  lemma DuplicateSkillsCollapse(a: string, b: string)
    requires a != "" && b != ""
    requires NormalizeSkill(a) == NormalizeSkill(b)
    ensures SkillSet([a, b]) == {NormalizeSkill(a)}
  {
    SkillSetSnoc([], a);
    SkillSetSnoc([a], b);
    assert [] + [a] == [a] && [a] + [b] == [a, b];
  }

  /** Adding a skill to the list adds its normal form to the set, unless it is empty. */
  lemma SkillSetSnoc(skills: seq<string>, x: string)
    ensures SkillSet(skills + [x]) == if x == "" then SkillSet(skills) else SkillSet(skills) + {NormalizeSkill(x)}
  {
    assert (skills + [x])[..|skills|] == skills;
  }

  /** Skill sets depend on which strings occur, not their order or multiplicity. */
  lemma SkillSetIgnoresOrder(a: seq<string>, b: seq<string>)
    requires forall s :: s in a <==> s in b
    ensures SkillSet(a) == SkillSet(b)
  {
    SkillSetIncluded(a, b);
    SkillSetIncluded(b, a);
  }

  lemma SkillSetIncluded(a: seq<string>, b: seq<string>)
    requires forall s :: s in a ==> s in b
    ensures SkillSet(a) <= SkillSet(b)
  {
    SkillSetMembers(a);
    SkillSetMembers(b);
    forall t | t in SkillSet(a)
      ensures t in SkillSet(b)
    {
      var s :| s in a && s != "" && NormalizeSkill(s) == t;
    }
  }

  /** Having more skills never lowers the skill score. */
  lemma MoreSkillsNeverLower(cv1: set<string>, cv2: set<string>, jd: set<string>)
    requires cv1 <= cv2
    ensures SkillScore(cv1, jd) <= SkillScore(cv2, jd)
  {
    SubsetCard(cv1 * jd, cv2 * jd);
    SubsetCard(cv2 * jd, jd);
    PercentMonotone(|cv1 * jd|, |cv2 * jd|, |jd|);
  }

  /** The percentage is the matched share of the total, scaled to 100. */
  lemma PercentIsShare(matched: nat, total: nat)
    requires total > 0
    ensures Percent(matched, total) * total as real == matched as real * 100.0
  {
  }

  /** The percentage grows with the matched count for a fixed total. */
  lemma PercentMonotone(m1: nat, m2: nat, total: nat)
    requires m1 <= m2
    ensures Percent(m1, total) <= Percent(m2, total)
  {
    if total > 0 {
      DivideMonotone(m1 as real, m2 as real, total as real);
    }
  }

  lemma DivideMonotone(a: real, b: real, t: real)
    requires a <= b && 0.0 < t
    ensures a / t <= b / t
  {
    assert b / t - a / t == (b - a) / t;
  }

  /** Truncation, not rounding: 70 + 20 + 8.9 = 98.9 reports as 98. */
  lemma TotalScoreTruncates()
    ensures TotalScore(100.0, 100.0, 89.0) == 98
  {
    assert WeightedSum(100.0, 100.0, 89.0) == 98.9;
  }
}
