/**
 * The two extracted records the scorer compares and the report it produces.
 * Every field is a well-typed value; a key missing from the extracted JSON is
 * the empty string or the empty sequence, as `dict.get(key, default)` gives.
 */
module Records {

  datatype Education = Education(school: string, degree: string, startYear: string, endYear: string)

  /** One entry of the candidate's work history; the dates are free text. */
  datatype Job = Job(company: string, position: string, startDate: string, endDate: string, description: string)

  datatype Project = Project(name: string, description: string)

  /** What the resume extraction yields. `projects` is read only by the duration variant. */
  datatype Candidate = Candidate(
    skills: seq<string>,
    education: seq<Education>,
    experience: seq<Job>,
    projects: seq<Project>)

  /** What the job-description extraction yields. */
  datatype JobDescription = JobDescription(
    requiredSkills: seq<string>,
    qualifications: seq<string>,
    experienceNeeded: seq<string>)

  /** The experience evidence differs between the two scoring variants. */
  datatype ExperienceEvidence =
    | ItemCount(expMatches: nat, expTotal: nat)   // item-count variant: matched / total requirement strings
    | Duration(cvYears: nat, jdYears: nat)        // duration variant: candidate years / required years

  /** The `scores` dictionary. `overlappingSkills` is the set behind `list(overlapping_skills)`. */
  datatype ScoreReport = ScoreReport(
    skillScore: real,
    skillMatches: nat,
    skillTotal: nat,
    overlappingSkills: set<string>,
    qualScore: real,
    qualMatches: nat,
    qualTotal: nat,
    expScore: real,
    experience: ExperienceEvidence,
    totalScore: int)
}
