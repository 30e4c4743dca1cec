/**
 * The duration variant of the scorer (app2.py): skills by normalised set
 * intersection, qualifications against education and project text with a
 * degree-family fallback on the education text, and experience by comparing
 * the candidate's summed years of tenure with the largest "N years" figure of
 * the job description. The clock is the `currentYear` parameter.
 */
module DurationPolicy {
  import opened Wrappers
  import opened Texts
  import opened Tally
  import opened Records
  import opened Scores
  import opened YearScan

  // ---------------------------------------------------------------------------
  // Candidate tenure: `_parse_experience_years`

  /** The end date says the job is still held. */
  predicate IsOpenEnded(endDate: string) {
    Contains("current", Lower(endDate)) || Contains("present", Lower(endDate))
  }

  /** The year a job ends: the current year when open-ended (checked first), else
      the end date's first four-digit run, else the year after the start. */
  function EndYear(endDate: string, startYear: nat, currentYear: int): int {
    if IsOpenEnded(endDate) then currentYear
    else match FirstYear(endDate)
      case Some(y) => y
      case None => startYear + 1
  }

  /** The years one job adds to the total: the inclusive span from start to end
      year, nothing if the start date has no year or the span is not positive. */
  function JobYears(job: Job, currentYear: int): nat {
    match FirstYear(job.startDate)
    case None => 0
    case Some(start) =>
      var duration := EndYear(job.endDate, start, currentYear) - start + 1;
      if duration > 0 then duration else 0
  }

  function JobYearsAt(currentYear: int): Job -> nat {
    job => JobYears(job, currentYear)
  }

  /** The candidate's total years: every job's contribution, overlaps counted twice. */
  function TotalYears(jobs: seq<Job>, currentYear: int): nat {
    Sum(jobs, JobYearsAt(currentYear))
  }

  method ParseExperienceYears(jobs: seq<Job>, currentYear: int) returns (total: int)
    ensures total == TotalYears(jobs, currentYear)
  {
    total := 0;
    for k := 0 to |jobs|
      invariant total == TotalYears(jobs[..k], currentYear)
    {
      var job := jobs[k];
      assert jobs[..k + 1] == jobs[..k] + [job];
      SumSnoc(jobs[..k], job, JobYearsAt(currentYear));
      var startYearMatch := FirstYear(job.startDate);
      if startYearMatch.None? {
        continue;
      }
      var startYear := startYearMatch.value;
      var endYear := startYear;
      if Contains("current", Lower(job.endDate)) || Contains("present", Lower(job.endDate)) {
        endYear := currentYear;
      } else {
        var endYearMatch := FirstYear(job.endDate);
        if endYearMatch.Some? {
          endYear := endYearMatch.value;
        } else {
          endYear := startYear + 1;
        }
      }
      var duration := (endYear - startYear) + 1;
      if duration > 0 {
        total := total + duration;
      }
    }
    assert jobs[..|jobs|] == jobs;
  }

  // ---------------------------------------------------------------------------
  // Required years: `_parse_jd_experience_req`

  /** The largest "N years" figure over all requirement strings, 0 if there is none. */
  function RequiredYears(reqs: seq<string>): (m: nat)
    ensures forall k, v :: 0 <= k < |reqs| && v in YearPhrases(reqs[k]) ==> v <= m
    ensures m == 0 || exists k :: 0 <= k < |reqs| && m in YearPhrases(reqs[k])
  {
    if |reqs| == 0 then 0
    else
      var front := reqs[..|reqs| - 1];
      assert forall k :: 0 <= k < |front| ==> front[k] == reqs[k];
      Larger(RequiredYears(front), Max(YearPhrases(reqs[|reqs| - 1])))
  }

  method ParseJdExperienceReq(reqs: seq<string>) returns (maxYears: nat)
    ensures maxYears == RequiredYears(reqs)
  {
    maxYears := 0;
    for k := 0 to |reqs|
      invariant maxYears == RequiredYears(reqs[..k])
    {
      var matches := YearPhrases(reqs[k]);
      for m := 0 to |matches|
        invariant maxYears == Larger(RequiredYears(reqs[..k]), Max(matches[..m]))
      {
        assert matches[..m + 1][..m] == matches[..m];
        if matches[m] > maxYears {
          maxYears := matches[m];
        }
      }
      assert matches[..|matches|] == matches;
      assert reqs[..k + 1][..k] == reqs[..k];
    }
    assert reqs[..|reqs|] == reqs;
  }

  /** The experience sub-score: full credit when nothing is required or the
      requirement is met, linear proration below it. */
  function ExperienceScore(cvYears: nat, jdYears: nat): (r: real)
    ensures 0.0 <= r <= 100.0
    ensures jdYears == 0 ==> r == 100.0
    ensures r == 100.0 <==> cvYears >= jdYears
    ensures 0 < jdYears && cvYears < jdYears ==> r * jdYears as real == cvYears as real * 100.0
  {
    if jdYears == 0 then 100.0
    else if cvYears >= jdYears then 100.0
    else (cvYears as real / jdYears as real) * 100.0
  }

  // ---------------------------------------------------------------------------
  // Qualifications

  /** `" ".join(f"{name} {description}" for each project).lower()` */
  function ProjectsText(projects: seq<Project>): string {
    Lower(JoinSpace(seq(|projects|, i requires 0 <= i < |projects| => projects[i].name + " " + projects[i].description)))
  }

  /** Education text, a space, project text: the haystack of the verbatim test. */
  function QualificationText(cv: Candidate): string {
    EducationText(cv.education) + " " + ProjectsText(cv.projects)
  }

  /** A requirement, lowercased and stripped, is matched when it is not blank and
      occurs in the combined text or shares a degree family with the education text. */
  predicate QualificationMet(q: string, educationText: string, qualText: string) {
    var ql := Trim(Lower(q));
    ql != "" && (Contains(ql, qualText) || DegreeFamilyMatch(ql, educationText))
  }

  function QualificationTest(educationText: string, qualText: string): string -> bool {
    q => QualificationMet(q, educationText, qualText)
  }

  /** The counting loop over `jd_data['qualifications']`. */
  method CountMatchedQualifications(quals: seq<string>, cvEducationText: string, cvQualText: string)
    returns (matchedQuals: nat)
    ensures matchedQuals == Count(quals, QualificationTest(cvEducationText, cvQualText))
  {
    ghost var met := QualificationTest(cvEducationText, cvQualText);
    matchedQuals := 0;
    for k := 0 to |quals|
      invariant matchedQuals == Count(quals[..k], met)
    {
      var qual := quals[k];
      assert quals[..k + 1] == quals[..k] + [qual];
      CountSnoc(quals[..k], qual, met);
      var qualLower := Trim(Lower(qual));
      assert met(qual) == (qualLower != "" && (Contains(qualLower, cvQualText) || DegreeFamilyMatch(qualLower, cvEducationText)));
      if qualLower == "" {
        continue;
      }
      if Contains(qualLower, cvQualText) {
        matchedQuals := matchedQuals + 1;
      } else if MentionsBachelor(qualLower) && MentionsBachelor(cvEducationText) {
        matchedQuals := matchedQuals + 1;
      } else if MentionsMaster(qualLower) && MentionsMaster(cvEducationText) {
        matchedQuals := matchedQuals + 1;
      }
    }
    assert quals[..|quals|] == quals;
  }

  // ---------------------------------------------------------------------------
  // The report: `calculate_match_score`

  /** The whole `scores` dictionary, declaratively. */
  function MatchReport(cv: Candidate, jd: JobDescription, currentYear: int): ScoreReport {
    var cvSkills := SkillSet(cv.skills);
    var jdSkills := SkillSet(jd.requiredSkills);
    var overlap := cvSkills * jdSkills;
    var skill := SkillScore(cvSkills, jdSkills);
    var qualMatches := Count(jd.qualifications, QualificationTest(EducationText(cv.education), QualificationText(cv)));
    var qual := Percent(qualMatches, |jd.qualifications|);
    var cvYears := TotalYears(cv.experience, currentYear);
    var jdYears := RequiredYears(jd.experienceNeeded);
    var exp := ExperienceScore(cvYears, jdYears);
    ScoreReport(skill, |overlap|, |jdSkills|, overlap,
                qual, qualMatches, |jd.qualifications|,
                exp, Duration(cvYears, jdYears),
                TotalScore(skill, qual, exp))
  }

  method CalculateMatchScore(cv: Candidate, jd: JobDescription, currentYear: int) returns (scores: ScoreReport)
    ensures scores == MatchReport(cv, jd, currentYear)
  {
    // skills
    var cvSkills := SkillSet(cv.skills);
    var jdSkills := SkillSet(jd.requiredSkills);
    var overlappingSkills := cvSkills * jdSkills;
    var skillScore := SkillScore(cvSkills, jdSkills);

    // qualifications
    var cvEducationText := EducationText(cv.education);
    var cvQualText := cvEducationText + " " + ProjectsText(cv.projects);
    var jdQualifications := jd.qualifications;
    var matchedQuals := 0;
    if |jdQualifications| != 0 {
      matchedQuals := CountMatchedQualifications(jdQualifications, cvEducationText, cvQualText);
    }
    var qualScore := Percent(matchedQuals, |jdQualifications|);

    // experience
    var cvYears := ParseExperienceYears(cv.experience, currentYear);
    var jdYearsReq := ParseJdExperienceReq(jd.experienceNeeded);
    var expScore := ExperienceScore(cvYears, jdYearsReq);

    // weighted total
    var totalScore := WeightedSum(skillScore, qualScore, expScore);
    scores := ScoreReport(skillScore, |overlappingSkills|, |jdSkills|, overlappingSkills,
                          qualScore, matchedQuals, |jdQualifications|,
                          expScore, Duration(cvYears, jdYearsReq),
                          Truncate(totalScore));
  }
}
