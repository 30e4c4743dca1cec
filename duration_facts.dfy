/**
 * Properties of the duration variant's specification functions: how each job
 * contributes to the tenure total, the required years as the largest phrase
 * number, and the report's bounds and invariances.
 */
module DurationFacts {
  import opened Wrappers
  import opened Texts
  import opened Tally
  import opened Records
  import opened Scores
  import opened YearScan
  import opened DurationPolicy

  // ---------------------------------------------------------------------------
  // Tenure

  /** A job whose start date holds no four-digit run adds nothing, wherever it sits. */
  lemma NoStartYearAddsNothing(a: seq<Job>, job: Job, b: seq<Job>, currentYear: int)
    requires FirstYear(job.startDate).None?
    ensures TotalYears(a + [job] + b, currentYear) == TotalYears(a + b, currentYear)
  {
    SumAppend(a + [job], b, JobYearsAt(currentYear));
    SumSnoc(a, job, JobYearsAt(currentYear));
    SumAppend(a, b, JobYearsAt(currentYear));
  }

  /** An open-ended job ends in the current year, whatever digits its end date holds. */
  lemma OpenEndedEndsNow(job: Job, start: nat, currentYear: int)
    requires FirstYear(job.startDate) == Some(start)
    requires IsOpenEnded(job.endDate)
    ensures JobYears(job, currentYear) == if currentYear - start + 1 > 0 then currentYear - start + 1 else 0
  {
  }

  /** A closed end date with no year counts as the year after the start: two years. */
  lemma MissingEndYearCountsTwo(job: Job, currentYear: int)
    requires FirstYear(job.startDate).Some?
    requires !IsOpenEnded(job.endDate) && FirstYear(job.endDate).None?
    ensures JobYears(job, currentYear) == 2
  {
  }

  /** A closed job adds its inclusive span of years. */
  lemma ClosedJobSpan(job: Job, start: nat, end: nat, currentYear: int)
    requires FirstYear(job.startDate) == Some(start)
    requires !IsOpenEnded(job.endDate) && FirstYear(job.endDate) == Some(end)
    requires start <= end
    ensures JobYears(job, currentYear) == end - start + 1
  {
  }

  /** A job that ends, by its end date, before it starts adds nothing. */
  lemma EndBeforeStartAddsNothing(job: Job, start: nat, end: nat, currentYear: int)
    requires FirstYear(job.startDate) == Some(start)
    requires !IsOpenEnded(job.endDate) && FirstYear(job.endDate) == Some(end)
    requires end < start
    ensures JobYears(job, currentYear) == 0
  {
  }

  /** Tenure over a concatenation is the sum of the parts. */
  lemma TotalYearsAppend(a: seq<Job>, b: seq<Job>, currentYear: int)
    ensures TotalYears(a + b, currentYear) == TotalYears(a, currentYear) + TotalYears(b, currentYear)
  {
    SumAppend(a, b, JobYearsAt(currentYear));
  }

  /** Overlapping jobs are not merged: the same job listed twice counts twice. */
  lemma OverlappingJobsDoubleCount(job: Job, currentYear: int)
    ensures TotalYears([job, job], currentYear) == 2 * JobYears(job, currentYear)
  {
    SumSnoc([job], job, JobYearsAt(currentYear));
    SumSnoc([], job, JobYearsAt(currentYear));
    assert [job] + [job] == [job, job];
  }

  /** The order of the work history does not matter. */
  lemma TotalYearsIgnoresOrder(a: seq<Job>, b: seq<Job>, currentYear: int)
    requires multiset(a) == multiset(b)
    ensures TotalYears(a, currentYear) == TotalYears(b, currentYear)
  {
    SumPermutation(a, b, JobYearsAt(currentYear));
  }

  // Worked dates

  /** A date of exactly four digits is read as that year. */
  lemma FourDigitDate(d: string)
    requires |d| == 4 && AllDigits(d)
    ensures FirstYear(d) == Some(1000 * DigitValue(d[0]) + 100 * DigitValue(d[1]) + 10 * DigitValue(d[2]) + DigitValue(d[3]))
  {
    assert d[0..4] == d;
    assert FourDigitsAt(d, 0);
    assert YearPosFrom(d, 0) == Some(0);
    assert d[..3][..2] == d[..2] && d[..2][..1] == d[..1] && d[..1][..0] == [];
    assert DigitsValue(d[..1]) == DigitValue(d[0]);
    assert DigitsValue(d[..2]) == 10 * DigitValue(d[0]) + DigitValue(d[1]);
    assert DigitsValue(d[..3]) == 100 * DigitValue(d[0]) + 10 * DigitValue(d[1]) + DigitValue(d[2]);
  }

  /** A date shorter than seven characters cannot hold "current" or "present". */
  lemma ShortDateNotOpenEnded(d: string)
    requires |d| < 7
    ensures !IsOpenEnded(d)
  {
    if Contains("current", Lower(d)) {
      ContainsLength("current", Lower(d));
    }
    if Contains("present", Lower(d)) {
      ContainsLength("present", Lower(d));
    }
  }

  /** 2020 to 2020 is one year: the span is inclusive. */
  lemma SameYearIsOneYear(currentYear: int)
    ensures JobYears(Job("", "", "2020", "2020", ""), currentYear) == 1
  {
    FourDigitDate("2020");
    ShortDateNotOpenEnded("2020");
  }

  /** 2018 to "Current" in 2024 is seven years. */
  lemma CurrentJobExample()
    ensures JobYears(Job("", "", "2018", "Current", ""), 2024) == 7
  {
    FourDigitDate("2018");
    assert Lower("Current") == "current";
    ContainsItself("current");
  }

  /** 2019 with an empty end date counts as two years. */
  lemma NoEndDateExample(currentYear: int)
    ensures JobYears(Job("", "", "2019", "", ""), currentYear) == 2
  {
    FourDigitDate("2019");
    ShortDateNotOpenEnded("");
    assert !FourDigitsAt("", 0);
  }

  /** "Present" wins over the year written before it: 2015 to "2019 - Present" in 2024 is ten years. */
  lemma PresentBeatsEndYear()
    ensures JobYears(Job("", "", "2015", "2019 - Present", ""), 2024) == 10
  {
    FourDigitDate("2015");
    var l := Lower("2019 - Present");
    assert l[7..][..7] == Lower("2019 - Present"[7..14]);
    assert "2019 - Present"[7..14] == "Present";
    assert Lower("Present") == "present";
    ContainsAt("present", l, 7);
  }

  // ---------------------------------------------------------------------------
  // Required years

  /** The required years is the largest number of any "N years" match that opens a
      digit run in any requirement, or 0 when there is none. */
  lemma RequiredYearsIsMaximum(reqs: seq<string>)
    ensures forall k, i, v: nat :: 0 <= k < |reqs| && RunStart(reqs[k], i) && PhraseWithValueAt(reqs[k], i, v)
                                   ==> v <= RequiredYears(reqs)
    ensures RequiredYears(reqs) == 0 ||
            exists k, i :: 0 <= k < |reqs| && RunStart(reqs[k], i) && PhraseWithValueAt(reqs[k], i, RequiredYears(reqs))
  {
    forall k, i, v: nat | 0 <= k < |reqs| && RunStart(reqs[k], i) && PhraseWithValueAt(reqs[k], i, v)
      ensures v <= RequiredYears(reqs)
    {
      MatchBelowRequired(reqs, k, i, v);
    }
    RequiredYearsAttained(reqs);
  }

  lemma MatchBelowRequired(reqs: seq<string>, k: nat, i: int, v: nat)
    requires k < |reqs| && RunStart(reqs[k], i) && PhraseWithValueAt(reqs[k], i, v)
    ensures v <= RequiredYears(reqs)
  {
    YearPhrasesExactly(reqs[k], v);
    assert v in YearPhrases(reqs[k]);
  }

  lemma RequiredYearsAttained(reqs: seq<string>)
    ensures RequiredYears(reqs) == 0 ||
            exists k, i :: 0 <= k < |reqs| && RunStart(reqs[k], i) && PhraseWithValueAt(reqs[k], i, RequiredYears(reqs))
  {
    var m := RequiredYears(reqs);
    if m != 0 {
      var k :| 0 <= k < |reqs| && m in YearPhrases(reqs[k]);
      YearPhrasesExactly(reqs[k], m);
      var i :| RunStart(reqs[k], i) && PhraseWithValueAt(reqs[k], i, m);
    }
  }

  /** Only which strings are listed matters: not their order, not repeats. */
  lemma RequiredYearsIgnoresOrder(a: seq<string>, b: seq<string>)
    requires forall s :: s in a <==> s in b
    ensures RequiredYears(a) == RequiredYears(b)
  {
    RequiredYearsAtMost(a, b);
    RequiredYearsAtMost(b, a);
  }

  lemma RequiredYearsAtMost(a: seq<string>, b: seq<string>)
    requires forall s :: s in a ==> s in b
    ensures RequiredYears(a) <= RequiredYears(b)
  {
    var m := RequiredYears(a);
    if m != 0 {
      var k :| 0 <= k < |a| && m in YearPhrases(a[k]);
      assert a[k] in b;
      var j :| 0 <= j < |b| && b[j] == a[k];
      assert m in YearPhrases(b[j]);
    }
  }

  const FivePlusRequirement: string := "5+ years in software development"
  const TwoYearsRequirement: string := "2 years SQL"

  /** A text opening with "5+ years" matches 5 there, the match ending after the "s". */
  lemma FivePlusPhraseAt(s: string)
    requires |s| >= 8 && s[..8] == "5+ years"
    ensures PhraseAt(s, 0) == Some((5, 8))
  {
    assert forall k :: 0 <= k < 8 ==> s[k] == "5+ years"[k];
    assert IsDigit(s[0]) && !IsDigit(s[1]) && s[1] == '+' && IsSpace(s[2]) && !IsSpace(s[3]);
    assert DigitRunEnd(s, 1) == 1;
    assert SpaceRunEnd(s, 3) == 3;
    assert SpaceRunEnd(s, 2) == 3;
    assert s[3..7] == "year";
    assert Lower("year") == "year";
    assert LowerChar(s[7]) == 's';
    assert s[0..1] == "5" && "5"[..0] == "";
  }

  lemma FivePlusPhrase()
    ensures PhraseAt(FivePlusRequirement, 0) == Some((5, 8))
  {
    assert FivePlusRequirement[..8] == "5+ years";
    FivePlusPhraseAt(FivePlusRequirement);
  }

  /** No digit follows the "5+ years" of the requirement. */
  lemma FivePlusTailDigitFree()
    ensures DigitFreeFrom(FivePlusRequirement, 8)
  {
    var s := FivePlusRequirement;
    assert forall k :: 8 <= k < |s| ==> !IsDigit(s[k]);
    DigitFreeSuffix(s, 8);
  }

  lemma FivePlusYears()
    ensures YearPhrases(FivePlusRequirement) == [5]
  {
    var s := FivePlusRequirement;
    FivePlusPhrase();
    FivePlusTailDigitFree();
    NoDigitsNoPhrases(s, 8);
  }

  /** A text opening with "2 years" matches 2 there, the match ending after the "s". */
  lemma TwoYearsPhraseAt(s: string)
    requires |s| >= 7 && s[..7] == "2 years"
    ensures PhraseAt(s, 0) == Some((2, 7))
  {
    assert forall k :: 0 <= k < 7 ==> s[k] == "2 years"[k];
    assert IsDigit(s[0]) && !IsDigit(s[1]) && s[1] != '+' && IsSpace(s[1]) && !IsSpace(s[2]);
    assert DigitRunEnd(s, 1) == 1;
    assert SpaceRunEnd(s, 2) == 2;
    assert SpaceRunEnd(s, 1) == 2;
    assert s[2..6] == "year";
    assert Lower("year") == "year";
    assert LowerChar(s[6]) == 's';
    assert s[0..1] == "2" && "2"[..0] == "";
  }

  lemma TwoYearsPhrase()
    ensures PhraseAt(TwoYearsRequirement, 0) == Some((2, 7))
  {
    assert TwoYearsRequirement[..7] == "2 years";
    TwoYearsPhraseAt(TwoYearsRequirement);
  }

  lemma TwoYearsSql()
    ensures YearPhrases(TwoYearsRequirement) == [2]
  {
    var s := TwoYearsRequirement;
    TwoYearsPhrase();
    assert DigitFreeFrom(s, 7);
    NoDigitsNoPhrases(s, 7);
  }

  /** The maximum, not the sum, is required: 5 and 2 years ask for 5. */
  lemma RequiredYearsExample()
    ensures RequiredYears([FivePlusRequirement, TwoYearsRequirement]) == 5
  {
    var reqs := [FivePlusRequirement, TwoYearsRequirement];
    FivePlusYears();
    TwoYearsSql();
    assert reqs[..1] == [FivePlusRequirement];
    assert reqs[..1][..0] == [];
  }

  // ---------------------------------------------------------------------------
  // The report

  /** Every sub-score and the total lie in [0, 100]; each score reaches 100 exactly
      when its requirement is fully met; the evidence counts never exceed their totals. */
  lemma MatchReportBounds(cv: Candidate, jd: JobDescription, currentYear: int)
    ensures var r := MatchReport(cv, jd, currentYear);
      && 0.0 <= r.skillScore <= 100.0 && 0.0 <= r.qualScore <= 100.0 && 0.0 <= r.expScore <= 100.0
      && 0 <= r.totalScore <= 100
      && r.overlappingSkills <= SkillSet(cv.skills) && r.overlappingSkills <= SkillSet(jd.requiredSkills)
      && r.skillMatches == |r.overlappingSkills| <= r.skillTotal
      && r.qualMatches <= r.qualTotal == |jd.qualifications|
      && (r.skillScore == 100.0 <==> SkillSet(jd.requiredSkills) <= SkillSet(cv.skills))
      && (r.qualScore == 100.0 <==>
            forall k :: 0 <= k < |jd.qualifications| ==>
              QualificationMet(jd.qualifications[k], EducationText(cv.education), QualificationText(cv)))
      && r.experience == Duration(TotalYears(cv.experience, currentYear), RequiredYears(jd.experienceNeeded))
      && (r.expScore == 100.0 <==> r.experience.cvYears >= r.experience.jdYears)
  {
    var cvSkills := SkillSet(cv.skills);
    var jdSkills := SkillSet(jd.requiredSkills);
    SubsetCard(cvSkills * jdSkills, jdSkills);
    var met := QualificationTest(EducationText(cv.education), QualificationText(cv));
    var n := Count(jd.qualifications, met);
    assert n == |jd.qualifications| <==> forall k :: 0 <= k < |jd.qualifications| ==> met(jd.qualifications[k]);
  }

  /** A job description that asks for nothing is passed outright. */
  lemma VacuousPass(cv: Candidate, currentYear: int)
    ensures var r := MatchReport(cv, JobDescription([], [], []), currentYear);
      r.skillScore == 100.0 && r.qualScore == 100.0 && r.expScore == 100.0 && r.totalScore == 100
  {
    assert SkillSet([]) == {};
    assert WeightedSum(100.0, 100.0, 100.0) == 100.0;
  }

  /** A requirement that is blank after stripping is never matched but still counts in
      the denominator. */
  lemma BlankQualificationDilutes(cv: Candidate, jd: JobDescription, q: string, currentYear: int)
    requires Trim(Lower(q)) == ""
    ensures var before := MatchReport(cv, jd, currentYear);
      var after := MatchReport(cv, jd.(qualifications := jd.qualifications + [q]), currentYear);
      after.qualMatches == before.qualMatches && after.qualTotal == before.qualTotal + 1
  {
    CountSnoc(jd.qualifications, q, QualificationTest(EducationText(cv.education), QualificationText(cv)));
  }

  /** Requirements are stripped here: "MIT " is found in a text holding "mit". */
  lemma StrippedRequirementFound(educationText: string)
    ensures QualificationMet("MIT ", educationText, "mit " + educationText)
  {
    assert Lower("MIT ") == "mit ";
    assert TrimStart("mit ") == "mit ";
    assert "mit "[..3] == "mit";
    assert TrimEnd("mit") == "mit";
    assert "mit" <= "mit " + educationText;
  }

  /** Listing projects can only add qualification matches: the project text extends
      the haystack of the verbatim test and the fallback ignores it. */
  lemma ProjectsNeverLowerQualifications(cv: Candidate, jd: JobDescription, currentYear: int)
    ensures MatchReport(cv.(projects := []), jd, currentYear).qualMatches <= MatchReport(cv, jd, currentYear).qualMatches
  {
    var edu := EducationText(cv.education);
    var bare := QualificationText(cv.(projects := []));
    var full := QualificationText(cv);
    assert ProjectsText([]) == "";
    assert bare == edu + " ";
    assert full == edu + " " + ProjectsText(cv.projects);
    var p := QualificationTest(edu, bare);
    var q := QualificationTest(edu, full);
    forall k | 0 <= k < |jd.qualifications| && p(jd.qualifications[k])
      ensures q(jd.qualifications[k])
    {
      var ql := Trim(Lower(jd.qualifications[k]));
      if Contains(ql, bare) {
        ContainsInLeft(ql, bare, ProjectsText(cv.projects));
      }
    }
    CountMonotone(jd.qualifications, p, q);
  }

  /** Reordering requirement lists changes nothing; skill and experience lists may also
      repeat or drop duplicates, the qualification list must keep its multiplicities. */
  lemma ReportIgnoresRequirementOrder(cv: Candidate, jd1: JobDescription, jd2: JobDescription, currentYear: int)
    requires forall s :: s in jd1.requiredSkills <==> s in jd2.requiredSkills
    requires multiset(jd1.qualifications) == multiset(jd2.qualifications)
    requires forall s :: s in jd1.experienceNeeded <==> s in jd2.experienceNeeded
    ensures MatchReport(cv, jd1, currentYear) == MatchReport(cv, jd2, currentYear)
  {
    SkillSetIgnoresOrder(jd1.requiredSkills, jd2.requiredSkills);
    CountPermutation(jd1.qualifications, jd2.qualifications, QualificationTest(EducationText(cv.education), QualificationText(cv)));
    assert |jd1.qualifications| == |multiset(jd1.qualifications)| == |jd2.qualifications|;
    RequiredYearsIgnoresOrder(jd1.experienceNeeded, jd2.experienceNeeded);
  }

  /** The order of the candidate's work history does not change the report. */
  lemma ReportIgnoresExperienceOrder(cv: Candidate, jobs: seq<Job>, jd: JobDescription, currentYear: int)
    requires multiset(jobs) == multiset(cv.experience)
    ensures MatchReport(cv.(experience := jobs), jd, currentYear) == MatchReport(cv, jd, currentYear)
  {
    TotalYearsIgnoresOrder(jobs, cv.experience, currentYear);
  }

  /** Fewer years of tenure never raise the experience score. */
  lemma ExperienceScoreMonotone(cv1: nat, cv2: nat, jdYears: nat)
    requires cv1 <= cv2
    ensures ExperienceScore(cv1, jdYears) <= ExperienceScore(cv2, jdYears)
  {
    if 0 < jdYears && cv2 < jdYears {
      DivideMonotone(cv1 as real, cv2 as real, jdYears as real);
    }
  }

  // ---------------------------------------------------------------------------
  // A whole report worked through

  /** A skill already in lower case without blanks normalises to itself. */
  lemma NormalizeClean(s: string)
    requires forall k :: 0 <= k < |s| ==> !IsUpper(s[k]) && !IsSpace(s[k])
    ensures NormalizeSkill(s) == s
  {
    assert Lower(s) == s;
    TrimTrimmed(s);
  }

  /** Two of three required skills: an overlap of two out of a required set of three.
      Stated on raw skills whose normal forms differ. */
  lemma TwoOfThreeSkills(a: string, b: string, c: string)
    requires a != "" && b != "" && c != ""
    requires NormalizeSkill(a) != NormalizeSkill(b) && NormalizeSkill(b) != NormalizeSkill(c)
    requires NormalizeSkill(a) != NormalizeSkill(c)
    ensures |SkillSet([a, b]) * SkillSet([a, c, b])| == 2
    ensures |SkillSet([a, c, b])| == 3
  {
    var cv := SkillSet([a, b]);
    var jd := SkillSet([a, c, b]);
    PairSkillSet(a, b);
    TripleSkillSet(a, c, b);
    assert cv * jd == cv;
  }

  lemma PairSkillSet(a: string, b: string)
    requires a != "" && b != ""
    ensures SkillSet([a, b]) == {NormalizeSkill(a), NormalizeSkill(b)}
  {
    SkillSetSingleton(a);
    SkillSetSnoc([a], b);
    assert [a] + [b] == [a, b];
  }

  lemma TripleSkillSet(a: string, b: string, c: string)
    requires a != "" && b != "" && c != ""
    ensures SkillSet([a, b, c]) == {NormalizeSkill(a), NormalizeSkill(b), NormalizeSkill(c)}
  {
    PairSkillSet(a, b);
    SkillSetSnoc([a, b], c);
    assert [a, b] + [c] == [a, b, c];
  }

  lemma BachelorsDegreeNormalized()
    ensures Trim(Lower("Bachelor's degree")) == Lower("Bachelor's degree")
    ensures Contains("bachelor", Lower("Bachelor's degree"))
  {
    var l := Lower("Bachelor's degree");
    assert l[..8] == "bachelor";
    assert l[0] == 'b' && l[16] == 'e';
    TrimTrimmed(l);
    ContainsAt("bachelor", l, 0);
  }

  lemma BsEducationText(school: string)
    ensures Contains("bs", EducationText([Education(school, "BS Computer Science", "", "")]))
  {
    var parts := seq(1, i requires 0 <= i < 1 => "BS Computer Science" + " " + school);
    assert JoinSpace(parts) == "BS Computer Science" + " " + school;
    var t := EducationText([Education(school, "BS Computer Science", "", "")]);
    assert t[..2] == "bs";
    ContainsAt("bs", t, 0);
  }

  /** "Bachelor's degree" is met by a BS through the degree-family fallback. */
  lemma DegreeFamilyExample(school: string, qualText: string)
    ensures QualificationMet("Bachelor's degree", EducationText([Education(school, "BS Computer Science", "", "")]), qualText)
  {
    BachelorsDegreeNormalized();
    BsEducationText(school);
  }

  lemma ScenarioQualifications(education: seq<Education>, qualText: string)
    requires education == [Education("", "BS Computer Science", "", "")]
    ensures Count(["Bachelor's degree"], QualificationTest(EducationText(education), qualText)) == 1
  {
    DegreeFamilyExample("", qualText);
    var met := QualificationTest(EducationText(education), qualText);
    assert met(["Bachelor's degree"][0]);
  }

  lemma PresentSince2019()
    ensures TotalYears([Job("", "", "2019", "present", "")], 2024) == 6
  {
    FourDigitDate("2019");
    ContainsItself("present");
    assert Lower("present") == "present";
    SumSnoc([], Job("", "", "2019", "present", ""), JobYearsAt(2024));
  }

  lemma FivePlusYearsShort()
    ensures RequiredYears(["5+ years"]) == 5
  {
    var s := "5+ years";
    assert s[..8] == "5+ years";
    FivePlusPhraseAt(s);
    assert YearPhrases(s) == [5];
    assert ["5+ years"][..0] == [];
  }

  /** Two of three skills, a bachelor's requirement met by a BS, six years against five
      required: 66.67 * 0.7 + 20 + 10 = 76.67, reported as 76. */
  lemma ScenarioReport()
    ensures var r := MatchReport(
        Candidate(["python", "sql"], [Education("", "BS Computer Science", "", "")],
                  [Job("", "", "2019", "present", "")], []),
        JobDescription(["python", "react", "sql"], ["Bachelor's degree"], ["5+ years"]),
        2024);
      && r.skillMatches == 2 && r.skillTotal == 3 && r.skillScore == 200.0 / 3.0
      && r.qualScore == 100.0 && r.experience == Duration(6, 5) && r.expScore == 100.0
      && r.totalScore == 76
  {
    var cv := Candidate(["python", "sql"], [Education("", "BS Computer Science", "", "")],
                        [Job("", "", "2019", "present", "")], []);
    NormalizeClean("python");
    NormalizeClean("sql");
    NormalizeClean("react");
    TwoOfThreeSkills("python", "sql", "react");
    ScenarioQualifications(cv.education, QualificationText(cv));
    PresentSince2019();
    FivePlusYearsShort();
    assert Percent(2, 3) == 200.0 / 3.0;
    assert WeightedSum(200.0 / 3.0, 100.0, 100.0) == 230.0 / 3.0;
  }
}
