/**
 * The item-count variant of the scorer (app.py): the same skill score, each
 * qualification looked up in the education text only (lowercased, not
 * stripped) with the same degree-family fallback, and experience as the share
 * of requirement strings found in the candidate's positions and descriptions.
 */
module ItemCountPolicy {
  import opened Texts
  import opened Tally
  import opened Records
  import opened Scores

  // ---------------------------------------------------------------------------
  // Qualifications

  /** A lowercased requirement is matched when it occurs in the education text or
      shares a degree family with it. Nothing is stripped, so "" always matches. */
  predicate QualificationMet(q: string, educationText: string) {
    var ql := Lower(q);
    Contains(ql, educationText) || DegreeFamilyMatch(ql, educationText)
  }

  function QualificationTest(educationText: string): string -> bool {
    q => QualificationMet(q, educationText)
  }

  /** The counting loop over `jd_data['qualifications']`. */
  method CountMatchedQualifications(quals: seq<string>, cvEducationText: string) returns (matchedQuals: nat)
    ensures matchedQuals == Count(quals, QualificationTest(cvEducationText))
  {
    ghost var met := QualificationTest(cvEducationText);
    matchedQuals := 0;
    for k := 0 to |quals|
      invariant matchedQuals == Count(quals[..k], met)
    {
      var qual := quals[k];
      assert quals[..k + 1] == quals[..k] + [qual];
      CountSnoc(quals[..k], qual, met);
      assert met(qual) == QualificationMet(qual, cvEducationText);
      var qualLower := Lower(qual);
      if Contains(qualLower, cvEducationText) {
        matchedQuals := matchedQuals + 1;
      } else if MentionsBachelor(qualLower) && MentionsBachelor(cvEducationText) {
        matchedQuals := matchedQuals + 1;
      } else if MentionsMaster(qualLower) && MentionsMaster(cvEducationText) {
        matchedQuals := matchedQuals + 1;
      }
    }
    assert quals[..|quals|] == quals;
  }

  // ---------------------------------------------------------------------------
  // Experience

  /** `" ".join(f"{position} {description}" for each job).lower()` */
  function ExperienceText(jobs: seq<Job>): string {
    Lower(JoinSpace(seq(|jobs|, i requires 0 <= i < |jobs| => jobs[i].position + " " + jobs[i].description)))
  }

  /** A requirement is met when its lowercase form occurs in the experience text. */
  predicate ExperienceMet(req: string, experienceText: string) {
    Contains(Lower(req), experienceText)
  }

  function ExperienceTest(experienceText: string): string -> bool {
    req => ExperienceMet(req, experienceText)
  }

  /** The counting loop over `jd_data['experience_needed']`. */
  method CountMatchedExperience(reqs: seq<string>, cvExpText: string) returns (matchedExp: nat)
    ensures matchedExp == Count(reqs, ExperienceTest(cvExpText))
  {
    ghost var met := ExperienceTest(cvExpText);
    matchedExp := 0;
    for k := 0 to |reqs|
      invariant matchedExp == Count(reqs[..k], met)
    {
      assert reqs[..k + 1] == reqs[..k] + [reqs[k]];
      CountSnoc(reqs[..k], reqs[k], met);
      if Contains(Lower(reqs[k]), cvExpText) {
        matchedExp := matchedExp + 1;
      }
    }
    assert reqs[..|reqs|] == reqs;
  }

  // ---------------------------------------------------------------------------
  // The report: `calculate_match_score`

  /** The whole `scores` dictionary, declaratively. */
  function MatchReport(cv: Candidate, jd: JobDescription): ScoreReport {
    var cvSkills := SkillSet(cv.skills);
    var jdSkills := SkillSet(jd.requiredSkills);
    var overlap := cvSkills * jdSkills;
    var skill := SkillScore(cvSkills, jdSkills);
    var qualMatches := Count(jd.qualifications, QualificationTest(EducationText(cv.education)));
    var qual := Percent(qualMatches, |jd.qualifications|);
    var expMatches := Count(jd.experienceNeeded, ExperienceTest(ExperienceText(cv.experience)));
    var exp := Percent(expMatches, |jd.experienceNeeded|);
    ScoreReport(skill, |overlap|, |jdSkills|, overlap,
                qual, qualMatches, |jd.qualifications|,
                exp, ItemCount(expMatches, |jd.experienceNeeded|),
                TotalScore(skill, qual, exp))
  }

  method CalculateMatchScore(cv: Candidate, jd: JobDescription) returns (scores: ScoreReport)
    ensures scores == MatchReport(cv, jd)
  {
    // skills
    var cvSkills := SkillSet(cv.skills);
    var jdSkills := SkillSet(jd.requiredSkills);
    var overlappingSkills := cvSkills * jdSkills;
    var skillScore := SkillScore(cvSkills, jdSkills);

    // qualifications
    var cvEducationText := EducationText(cv.education);
    var jdQualifications := jd.qualifications;
    var matchedQuals := 0;
    if |jdQualifications| != 0 {
      matchedQuals := CountMatchedQualifications(jdQualifications, cvEducationText);
    }
    var qualScore := Percent(matchedQuals, |jdQualifications|);

    // experience
    var cvExpText := ExperienceText(cv.experience);
    var jdExpReqs := jd.experienceNeeded;
    var matchedExp := 0;
    if |jdExpReqs| != 0 {
      matchedExp := CountMatchedExperience(jdExpReqs, cvExpText);
    }
    var expScore := Percent(matchedExp, |jdExpReqs|);

    // weighted total
    var totalScore := WeightedSum(skillScore, qualScore, expScore);
    scores := ScoreReport(skillScore, |overlappingSkills|, |jdSkills|, overlappingSkills,
                          qualScore, matchedQuals, |jdQualifications|,
                          expScore, ItemCount(matchedExp, |jdExpReqs|),
                          Truncate(totalScore));
  }
}
