/**
 * Properties of the item-count variant's specification functions.
 */
module ItemCountFacts {
  import opened Texts
  import opened Tally
  import opened Records
  import opened Scores
  import opened ItemCountPolicy

  /** Without stripping, an empty requirement occurs in every text and so is matched:
      appending one adds one to both the matches and the total. */
  lemma EmptyQualificationMatches(cv: Candidate, jd: JobDescription)
    ensures var before := MatchReport(cv, jd);
      var after := MatchReport(cv, jd.(qualifications := jd.qualifications + [""]));
      after.qualMatches == before.qualMatches + 1 && after.qualTotal == before.qualTotal + 1
  {
    var met := QualificationTest(EducationText(cv.education));
    ContainsEmpty(EducationText(cv.education));
    assert Lower("") == "";
    assert met("");
    CountSnoc(jd.qualifications, "", met);
  }

  /** A requirement found in one entry's degree is matched. */
  lemma DegreeQualificationFound(q: string, education: seq<Education>, k: nat)
    requires k < |education|
    requires Contains(Lower(q), Lower(education[k].degree))
    ensures QualificationMet(q, EducationText(education))
  {
    DegreeInEducationText(Lower(q), education, k);
  }

  /** Each job's "position description" part is found in the experience text. */
  lemma JobInExperienceText(needle: string, jobs: seq<Job>, k: nat)
    requires k < |jobs|
    requires Contains(needle, Lower(jobs[k].position + " " + jobs[k].description))
    ensures Contains(needle, ExperienceText(jobs))
  {
    var parts := seq(|jobs|, i requires 0 <= i < |jobs| => jobs[i].position + " " + jobs[i].description);
    JoinSpaceContainsPart(parts, k);
    ContainsLower(parts[k], JoinSpace(parts));
    ContainsTransitive(needle, Lower(parts[k]), ExperienceText(jobs));
  }

  /** A requirement naming one of the candidate's positions is met. */
  lemma PositionRequirementFound(req: string, jobs: seq<Job>, k: nat)
    requires k < |jobs|
    requires Contains(Lower(req), Lower(jobs[k].position))
    ensures ExperienceMet(req, ExperienceText(jobs))
  {
    var p, d := jobs[k].position, jobs[k].description;
    ContainsItself(p);
    ContainsInLeft(p, p, " " + d);
    assert p + " " + d == p + (" " + d);
    ContainsLower(p, p + " " + d);
    ContainsTransitive(Lower(req), Lower(p), Lower(p + " " + d));
    JobInExperienceText(Lower(req), jobs, k);
  }

  /** A requirement occurring in one of the candidate's job descriptions is met. */
  lemma DescriptionRequirementFound(req: string, jobs: seq<Job>, k: nat)
    requires k < |jobs|
    requires Contains(Lower(req), Lower(jobs[k].description))
    ensures ExperienceMet(req, ExperienceText(jobs))
  {
    var p, d := jobs[k].position, jobs[k].description;
    ContainsItself(d);
    ContainsInRight(d, p + " ", d);
    ContainsLower(d, p + " " + d);
    ContainsTransitive(Lower(req), Lower(d), Lower(p + " " + d));
    JobInExperienceText(Lower(req), jobs, k);
  }

  /** Every sub-score and the total lie in [0, 100]; each score reaches 100 exactly
      when every requirement of its kind is met; counts never exceed totals. */
  lemma MatchReportBounds(cv: Candidate, jd: JobDescription)
    ensures var r := MatchReport(cv, jd);
      && 0.0 <= r.skillScore <= 100.0 && 0.0 <= r.qualScore <= 100.0 && 0.0 <= r.expScore <= 100.0
      && 0 <= r.totalScore <= 100
      && r.overlappingSkills <= SkillSet(cv.skills) && r.overlappingSkills <= SkillSet(jd.requiredSkills)
      && r.skillMatches == |r.overlappingSkills| <= r.skillTotal
      && r.qualMatches <= r.qualTotal == |jd.qualifications|
      && r.experience.ItemCount? && r.experience.expMatches <= r.experience.expTotal == |jd.experienceNeeded|
      && (r.skillScore == 100.0 <==> SkillSet(jd.requiredSkills) <= SkillSet(cv.skills))
      && (r.qualScore == 100.0 <==>
            forall k :: 0 <= k < |jd.qualifications| ==> QualificationMet(jd.qualifications[k], EducationText(cv.education)))
      && (r.expScore == 100.0 <==>
            forall k :: 0 <= k < |jd.experienceNeeded| ==> ExperienceMet(jd.experienceNeeded[k], ExperienceText(cv.experience)))
  {
    var cvSkills := SkillSet(cv.skills);
    var jdSkills := SkillSet(jd.requiredSkills);
    SubsetCard(cvSkills * jdSkills, jdSkills);
    var qmet := QualificationTest(EducationText(cv.education));
    var emet := ExperienceTest(ExperienceText(cv.experience));
    var qn := Count(jd.qualifications, qmet);
    var en := Count(jd.experienceNeeded, emet);
    assert qn == |jd.qualifications| <==> forall k :: 0 <= k < |jd.qualifications| ==> qmet(jd.qualifications[k]);
    assert en == |jd.experienceNeeded| <==> forall k :: 0 <= k < |jd.experienceNeeded| ==> emet(jd.experienceNeeded[k]);
  }

  /** A job description that asks for nothing is passed outright. */
  lemma VacuousPass(cv: Candidate)
    ensures var r := MatchReport(cv, JobDescription([], [], []));
      r.skillScore == 100.0 && r.qualScore == 100.0 && r.expScore == 100.0 && r.totalScore == 100
  {
    assert SkillSet([]) == {};
    assert WeightedSum(100.0, 100.0, 100.0) == 100.0;
  }

  /** Reordering requirement lists changes nothing; skill lists may also repeat or drop
      duplicates, the qualification and experience lists must keep their multiplicities. */
  lemma ReportIgnoresRequirementOrder(cv: Candidate, jd1: JobDescription, jd2: JobDescription)
    requires forall s :: s in jd1.requiredSkills <==> s in jd2.requiredSkills
    requires multiset(jd1.qualifications) == multiset(jd2.qualifications)
    requires multiset(jd1.experienceNeeded) == multiset(jd2.experienceNeeded)
    ensures MatchReport(cv, jd1) == MatchReport(cv, jd2)
  {
    SkillSetIgnoresOrder(jd1.requiredSkills, jd2.requiredSkills);
    CountPermutation(jd1.qualifications, jd2.qualifications, QualificationTest(EducationText(cv.education)));
    CountPermutation(jd1.experienceNeeded, jd2.experienceNeeded, ExperienceTest(ExperienceText(cv.experience)));
    assert |jd1.qualifications| == |multiset(jd1.qualifications)| == |jd2.qualifications|;
    assert |jd1.experienceNeeded| == |multiset(jd1.experienceNeeded)| == |jd2.experienceNeeded|;
  }

  /** Projects are not read by this variant. */
  lemma ProjectsIgnored(cv: Candidate, projects: seq<Project>, jd: JobDescription)
    ensures MatchReport(cv.(projects := projects), jd) == MatchReport(cv, jd)
  {
  }

  /** One of two experience requirements met: the experience score is 50. */
  lemma HalfExperience(cv: Candidate, jd: JobDescription)
    requires |jd.experienceNeeded| == 2
    requires ExperienceMet(jd.experienceNeeded[0], ExperienceText(cv.experience))
    requires !ExperienceMet(jd.experienceNeeded[1], ExperienceText(cv.experience))
    ensures MatchReport(cv, jd).expScore == 50.0
  {
    var met := ExperienceTest(ExperienceText(cv.experience));
    var reqs := jd.experienceNeeded;
    assert reqs == [reqs[0]] + [reqs[1]];
    CountSnoc([reqs[0]], reqs[1], met);
    CountSnoc([], reqs[0], met);
    assert [] + [reqs[0]] == [reqs[0]];
  }

  /** Requirements are not stripped here: "MIT " is not found in the education text "mit",
      and "mit" names no degree family to fall back on. */
  lemma UnstrippedRequirementMisses()
    ensures !QualificationMet("MIT ", "mit")
  {
    assert Lower("MIT ") == "mit ";
    if Contains("mit ", "mit") {
      ContainsLength("mit ", "mit");
    }
    NoDegreeFamilyInMit();
  }

  lemma NoDegreeFamilyInMit()
    ensures !MentionsBachelor("mit") && !MentionsMaster("mit")
  {
    if Contains("bachelor", "mit") {
      ContainsLength("bachelor", "mit");
    }
    if Contains("master", "mit") {
      ContainsLength("master", "mit");
    }
    NotInMit("bs");
    NotInMit("b.s");
    NotInMit("ms");
    NotInMit("m.s");
  }

  /** A string of two or more characters opening with neither "mi" nor "it" is not in "mit". */
  lemma NotInMit(sub: string)
    requires |sub| >= 2 && !(sub[0] == 'm' && sub[1] == 'i') && !(sub[0] == 'i' && sub[1] == 't')
    ensures !Contains(sub, "mit")
  {
    assert "mit"[1..] == "it" && "it"[1..] == "t" && "t"[1..] == "";
  }
}
