# CV / job-description match scorer in Dafny

These modules model the rule-based scorer of a resume-to-job matcher. The scorer takes two records that have already been extracted:
- a candidate, with skills, education, work experience and projects;
- a job description, with required skills, qualifications and experience requirements.

It returns a score report with three sub-scores in [0, 100], the evidence behind each one, and a total equal to `int(0.7·skill + 0.2·qual + 0.1·exp)`.

There are two variants of `calculate_match_score`. Both are modelled.

- **Duration policy** (`app2.py`, module `DurationPolicy`):
  - Skills are compared as sets after lowercasing and stripping.
  - Qualifications are looked up in the education text plus the project text. A bachelor/master "degree-family" fallback reads the education text only.
  - Experience compares two totals. The candidate's total is the sum of inclusive tenures, computed from the first four-digit year of each date, with "current"/"present" meaning the current year. The required total is the largest `N[+] year[s]` figure among the requirements.
- **Item-count policy** (`app.py`, module `ItemCountPolicy`):
  - Skills are scored the same way.
  - Qualifications are found in the education text only. They are lowercased but not stripped.
  - Experience is the share of requirement strings that occur in the text built from each job's position and description.

Modules:
- `Texts`: the string operations the scorer uses on ASCII text (`lower`, `strip`, `in` and `" ".join`) and their laws.
- `Tally`: sums, counts and maxima over sequences, with permutation invariance.
- `Records`: the records and the report.
- `Scores`: the pieces both variants share: normalised skill sets, the percentage with its vacuous 100, degree families, truncation and the weighted total.
- `YearScan`: the two regular expressions written out as scanners.
  - `FirstYear` is `re.search(r'(\d{4})', s)`.
  - `YearPhrases` is `re.findall(r'(\d+)\+?\s*year[s]?', s, re.IGNORECASE)`.
  - Both come with lemmas that characterise which numbers they return.
- `DurationPolicy` and `ItemCountPolicy`: the imperative shape of the source.
  - `ParseExperienceYears`, `ParseJdExperienceReq`, the counting loops and `CalculateMatchScore` are methods.
  - Each method is proved equal to a specification function: `TotalYears`, `RequiredYears`, `Count` and `MatchReport`.
- `DurationFacts` and `ItemCountFacts`: lemmas about those specification functions.

Three behaviours of the code are easy to misread:
- **Blank skills.** The skill filter `if s` runs before `strip`, so a whitespace-only skill survives as the empty string instead of being dropped.
- **Fallback haystack.** In the duration variant, the degree-family fallback reads the education text, not the combined education+projects haystack.
- **Item-count qualifications.** The item-count variant neither strips nor skips blank qualifications, so an empty qualification always matches.

## Model

| member | source | states |
|---|---|---|
| Texts.Lower | app2.py:107 | defines `str.lower` on ASCII, mapping A-Z to a-z and keeping every other character; `LowerIdempotent`, `ContainsLower`, `TrimStartLower` and `TrimEndLower` state its laws |
| Texts.Contains | app2.py:147 | defines the `in` substring test, with the empty string found everywhere; `ContainsWitness` and `ContainsAt` pin it to an occurrence at some position |
| Texts.TrimStart | app2.py:143 | defines `lstrip` over ASCII `isspace`; `TrimStartShape` states exactly what it removes |
| Texts.TrimEnd | app2.py:143 | defines `rstrip` over ASCII `isspace`; `TrimEndShape` states exactly what it removes |
| Texts.Trim | app2.py:143 | defines `strip` as `rstrip` after `lstrip`; idempotent by `TrimIdempotent` |
| Texts.DigitsValue | app2.py:60 | defines `int()` of a string of ASCII digits as the decimal value; `DigitsValueBound` bounds it and `FourDigitDate` evaluates a four-digit date |
| Texts.JoinSpace | app2.py:123-132 | defines `" ".join`; `JoinSpaceContainsPart` states that every part occurs in the result |
| Texts.TrimStartShape | app2.py:107 | `lstrip` removes exactly a leading block of whitespace and stops at a non-space character |
| Texts.TrimEndShape | app2.py:107 | `rstrip` removes exactly a trailing block of whitespace and stops at a non-space character |
| Texts.TrimIdempotent | app2.py:143 | stripping twice is stripping once |
| Texts.ContainsWitness | app2.py:147 | `sub in s` implies `sub` occurs at some position of `s` |
| Texts.ContainsAt | app2.py:147 | an occurrence at any position makes `sub in s` true |
| Texts.ContainsLength | app.py:80 | a string is never found in a shorter one |
| Texts.ContainsTransitive | app2.py:147 | substring containment is transitive |
| Texts.ContainsLower | app2.py:126 | lowercasing both sides keeps an occurrence |
| Texts.JoinSpaceContainsPart | app2.py:123-126 | every part of a `" ".join` occurs in the joined text |
| Texts.TrimStartLower | app2.py:143 | `lower` and `lstrip` commute |
| Texts.TrimEndLower | app2.py:143 | `lower` and `rstrip` commute |
| Tally.Count | app2.py:142-155 | the count of matching items is at most their number; it equals their number iff all match and is 0 iff none do |
| Tally.SumAppend | app2.py:51-77 | a sum over a concatenation is the sum of the two sums |
| Tally.SumPermutation | app2.py:51-77 | a sum does not depend on the order of the items |
| Tally.CountPermutation | app.py:78-88 | a count does not depend on the order of the items |
| Tally.CountMonotone | app2.py:147 | a weaker test never counts fewer items |
| Tally.Max | app2.py:90-94 | the maximum bounds every element and is 0 or one of them |
| Scores.NormalizeSkill | app2.py:107-108 | defines a skill's normal form, `lower()` then `strip()`; idempotent by `NormalizeIdempotent` |
| Scores.SkillSet | app2.py:107-108 | defines the skill set as a fold over the list that drops raw empty strings and adds each other skill's normal form; `SkillSetMembers` states its contents |
| Scores.SkillSetMembers | app2.py:107-108 | the skill set holds the lowercased, stripped form of every non-empty listed skill, and nothing else |
| Scores.SkillSetSnoc | app2.py:107 | one more listed skill adds its normal form, unless the raw string is empty |
| Scores.SkillSetIgnoresOrder | app2.py:107-108 | the skill set depends only on which strings are listed |
| Scores.NormalizeIdempotent | app2.py:107 | normalising a skill twice is normalising it once |
| Scores.SkillNormalizationExample | app2.py:107-110 | "Python " and "python" share the skill "python" |
| Scores.BlankSkillSurvives | app2.py:107 | a whitespace-only skill becomes "", and an empty one is dropped |
| Scores.DuplicateSkillsCollapse | app2.py:107 | skills equal up to case and outer blanks collapse into one |
| Scores.Percent | app2.py:112-115 | 100 for an empty total, otherwise in [0, 100] when matched ≤ total, and exactly 100 iff all are matched |
| Scores.PercentIsShare | app2.py:157 | for a positive total the percentage times the total is 100 times the matched count |
| Scores.PercentMonotone | app2.py:157 | the percentage never decreases as the matched count grows |
| Scores.SkillScore | app2.py:112-115 | skill score in [0, 100], 100 for no required skills, 100 iff every required skill is held, and otherwise the overlap's share of the required set times 100 |
| Scores.MoreSkillsNeverLower | app2.py:110-115 | extra candidate skills never lower the skill score |
| Scores.EducationText | app2.py:123-126 | defines the education haystack: degree and school of each entry, space-joined and lowercased; `DegreeInEducationText` states what it contains |
| Scores.DegreeFamilyMatch | app2.py:150-155 | defines the fallback: both texts mention one of bachelor/bs/b.s, or both mention one of master/ms/m.s |
| Scores.DegreeInEducationText | app2.py:123-126 | text found in one entry's degree is found in the education haystack |
| Scores.Truncate | app2.py:182 | `int()` truncates toward zero, for both signs |
| Scores.TotalScore | app2.py:181-182 | with sub-scores in [0, 100] the total is in [0, 100] and is the integer part of the weighted sum |
| Scores.TotalScoreTruncates | app.py:117-118 | 100, 100 and 89 give 98: truncation, not rounding |
| YearScan.YearPosFrom | app2.py:57 | the leftmost position from a start where four digits begin, or none |
| YearScan.FirstYear | app2.py:57-60 | none iff no four-digit run exists; otherwise the value of the leftmost run, below 10000 |
| YearScan.PhraseAt | app2.py:89 | a match exists at a position iff a digit starts there and "year" follows its greedy prefix; the captured number is the value of the whole digit run; the match ends after a non-digit and has no digit run starting inside it |
| YearScan.NoBacktrackingMatch | app2.py:89 | no shorter prefix (fewer digits, no `+`, fewer blanks) is followed by "year", so backtracking never finds a match the greedy scan misses |
| YearScan.PhrasesFromSound | app2.py:89 | every number the scan returns comes from a match that starts a digit run |
| YearScan.PhrasesFromComplete | app2.py:89 | every match starting a digit run is returned by the scan |
| YearScan.YearPhrasesExactly | app2.py:89 | `findall` returns exactly the numbers of the matches that open a digit run |
| YearScan.NoDigitsNoPhrases | app2.py:89 | digit-free text yields no match |
| YearScan.DigitFreeSuffix | app2.py:89 | a suffix in which no character is a digit is digit-free |
| YearScan.YearPhrases | app2.py:89 | defines `findall`'s numbers as the left-to-right scan `PhrasesFrom` from position 0; `YearPhrasesExactly` states which numbers it returns |
| YearScan.PhrasesFrom | app2.py:89 | defines the scan: after a match it resumes at the match's end, otherwise one character further; `PhrasesFromSound` and `PhrasesFromComplete` state what it returns |
| DurationPolicy.IsOpenEnded | app2.py:64 | defines an open-ended job: "current" or "present" occurs in the lowercased end date; `OpenEndedEndsNow` and `PresentBeatsEndYear` state its effect |
| DurationPolicy.EndYear | app2.py:62-72 | defines the end year: the current year if open-ended (tested first), else the end date's first four-digit year, else the start year plus 1; `MissingEndYearCountsTwo` states the fallback |
| DurationPolicy.JobYears | app2.py:56-77 | defines one job's contribution, the inclusive span from start to end year, or 0 without a start year or for a non-positive span; `NoStartYearAddsNothing` and `EndBeforeStartAddsNothing` state both zero cases |
| DurationPolicy.TotalYears | app2.py:46-82 | defines the candidate's tenure as the sum of `JobYears` over the work history; additive, order-free and duplicate-counting by `TotalYearsAppend`, `TotalYearsIgnoresOrder` and `OverlappingJobsDoubleCount` |
| DurationPolicy.ParseExperienceYears | app2.py:46-82 | the loop returns `TotalYears`: each job's inclusive span, with open-ended and missing end dates, positive spans only |
| DurationPolicy.RequiredYears | app2.py:84-97 | the required years bound every phrase number in every requirement and is 0 or one of them |
| DurationPolicy.ParseJdExperienceReq | app2.py:84-97 | the nested loops return `RequiredYears` |
| DurationPolicy.ExperienceScore | app2.py:169-174 | in [0, 100]; 100 when nothing is required; 100 iff the candidate has the required years; below the requirement, the candidate's years over the required years times 100 |
| DurationPolicy.ProjectsText | app2.py:129-132 | defines the projects haystack: name and description of each project, space-joined and lowercased |
| DurationPolicy.QualificationText | app2.py:134 | defines the combined haystack: education text, a space, projects text; `ProjectsNeverLowerQualifications` states that projects only widen it |
| DurationPolicy.QualificationMet | app2.py:142-155 | defines a matched requirement: lowercased and stripped, not blank, and either found in the combined text or sharing a degree family with the education text; `StrippedRequirementFound`, `BlankQualificationDilutes` and `DegreeFamilyExample` state its cases |
| DurationPolicy.CountMatchedQualifications | app2.py:142-155 | the loop, with its skip and if/elif chain, counts the qualifications `QualificationMet` accepts |
| DurationPolicy.MatchReport | app2.py:100-184 | defines the whole report declaratively; `MatchReportBounds`, `VacuousPass`, `ReportIgnoresRequirementOrder` and `ReportIgnoresExperienceOrder` state its properties |
| DurationPolicy.CalculateMatchScore | app2.py:100-184 | the method builds exactly `MatchReport`, field by field |
| DurationFacts.NoStartYearAddsNothing | app2.py:57-59 | a job whose start date has no year adds nothing, wherever it is listed |
| DurationFacts.OpenEndedEndsNow | app2.py:64-65 | an end date with "current"/"present" ends in the current year, whatever digits it has |
| DurationFacts.MissingEndYearCountsTwo | app2.py:67-75 | a closed end date with no year makes the job count two years |
| DurationFacts.ClosedJobSpan | app2.py:56-77 | a job with a start year and a closed end date whose year is not earlier adds the inclusive span, end minus start plus one |
| DurationFacts.EndBeforeStartAddsNothing | app2.py:75-77 | a non-positive span adds nothing |
| DurationFacts.TotalYearsAppend | app2.py:51-77 | tenure over a concatenation is the sum of the parts |
| DurationFacts.OverlappingJobsDoubleCount | app2.py:76-77 | a job listed twice is counted twice; overlaps are not merged |
| DurationFacts.TotalYearsIgnoresOrder | app2.py:51-77 | the order of the work history does not change the total |
| DurationFacts.FourDigitDate | app2.py:57-60 | a date of exactly four digits is read as the year those digits spell |
| DurationFacts.SameYearIsOneYear | app2.py:74-75 | 2020 to 2020 counts one year |
| DurationFacts.CurrentJobExample | app2.py:64-65 | 2018 to "Current" in 2024 counts seven years |
| DurationFacts.NoEndDateExample | app2.py:70-72 | 2019 with an empty end date counts two years |
| DurationFacts.PresentBeatsEndYear | app2.py:64-69 | 2015 to "2019 - Present" counts up to the current year, not 2019 |
| DurationFacts.RequiredYearsIsMaximum | app2.py:86-97 | the required years bound every regex match in every requirement, and one match attains them unless they are 0 |
| DurationFacts.RequiredYearsIgnoresOrder | app2.py:87 | equal sets of requirement strings give equal required years |
| DurationFacts.RequiredYearsExample | app2.py:89-94 | "5+ years in software development" and "2 years SQL" require 5 |
| DurationFacts.ExperienceScoreMonotone | app2.py:169-174 | more tenure never lowers the experience score |
| DurationFacts.MatchReportBounds | app2.py:106-182 | all sub-scores and the total are in [0, 100]; the overlap is in both skill sets; counts never exceed totals; each sub-score is 100 iff its requirement is fully met |
| DurationFacts.VacuousPass | app2.py:112-113 | a job description asking for nothing scores 100 everywhere |
| DurationFacts.BlankQualificationDilutes | app2.py:143-144 | a blank qualification is skipped but still counted in the denominator |
| DurationFacts.StrippedRequirementFound | app2.py:143-148 | "MIT " is stripped before the lookup and is found |
| DurationFacts.ProjectsNeverLowerQualifications | app2.py:129-148 | adding projects to the haystack never lowers the qualification matches |
| DurationFacts.ReportIgnoresRequirementOrder | app2.py:107-167 | reordering the job description's lists leaves the report unchanged |
| DurationFacts.ReportIgnoresExperienceOrder | app2.py:166 | reordering the work history leaves the report unchanged |
| DurationFacts.TwoOfThreeSkills | app2.py:107-115 | two held skills out of three distinct required ones give an overlap of 2 out of 3 |
| DurationFacts.DegreeFamilyExample | app2.py:150-152 | "Bachelor's degree" is met by "BS Computer Science" through the fallback |
| DurationFacts.ScenarioReport | app2.py:100-184 | an end-to-end example: 2 of 3 skills (skill score 200/3), a bachelor's met by a BS, 6 years against 5, total 76 |
| ItemCountPolicy.QualificationMet | app.py:79-87 | defines a matched qualification: lowercased but not stripped, found in the education text or sharing a degree family with it; `EmptyQualificationMatches` and `UnstrippedRequirementMisses` state its edge cases |
| ItemCountPolicy.CountMatchedQualifications | app.py:78-87 | the loop counts the qualifications `QualificationMet` accepts |
| ItemCountPolicy.ExperienceText | app.py:96-99 | defines the experience haystack: position and description of each job, space-joined and lowercased |
| ItemCountPolicy.ExperienceMet | app.py:108 | defines a met requirement: its lowercased text occurs in the experience haystack; `PositionRequirementFound` and `DescriptionRequirementFound` state when |
| ItemCountPolicy.CountMatchedExperience | app.py:107-109 | the loop counts the requirements found in the experience text |
| ItemCountPolicy.MatchReport | app.py:44-120 | defines the whole report declaratively; `MatchReportBounds`, `VacuousPass`, `ReportIgnoresRequirementOrder` and `ProjectsIgnored` state its properties |
| ItemCountPolicy.CalculateMatchScore | app.py:44-120 | the method builds exactly `MatchReport`, field by field |
| ItemCountFacts.EmptyQualificationMatches | app.py:79-81 | an empty qualification matches and is counted in both the matches and the total |
| ItemCountFacts.UnstrippedRequirementMisses | app.py:79-87 | "MIT " is not stripped and is not found in "mit" |
| ItemCountFacts.DegreeQualificationFound | app.py:67-81 | a qualification found in one entry's degree is matched |
| ItemCountFacts.PositionRequirementFound | app.py:96-109 | a requirement naming one of the candidate's positions is met |
| ItemCountFacts.DescriptionRequirementFound | app.py:96-109 | a requirement found in one job's description is met |
| ItemCountFacts.MatchReportBounds | app.py:50-118 | all sub-scores and the total are in [0, 100]; the overlap is in both skill sets; counts never exceed totals; the skill score is 100 iff every required skill is held, and the qualification and experience scores are 100 iff every requirement of their kind is met |
| ItemCountFacts.VacuousPass | app.py:56-57 | a job description asking for nothing scores 100 everywhere |
| ItemCountFacts.ReportIgnoresRequirementOrder | app.py:78-88 | reordering the job description's lists leaves the report unchanged |
| ItemCountFacts.ProjectsIgnored | app.py:44-120 | this variant never reads the projects |
| ItemCountFacts.HalfExperience | app.py:107-110 | one of two experience requirements met gives 50 |

## Left out

- Extracting the records from PDFs through a language model is left out. It is a network call with JSON repair and caching, and the scorer receives its output as plain records.
- The Streamlit page is left out: layout, uploads, widgets and number formatting are presentation only.
- Reading the clock is left out. `datetime.datetime.now().year` is the `currentYear` parameter.
- Floating point is left out. Scores are exact reals, so `int()` of a float sum that sits just below an integer may differ from the exact truncation modelled here.
- Unicode is left out. `lower`, `strip`, `\d` and `\s` are modelled on ASCII; non-ASCII letters, digits and spaces are not.
- Dynamic typing is left out. That covers `None` or non-list fields, non-string items and the `except (ValueError, TypeError)` branch. Fields are well-typed sequences, and a missing key is the empty value `dict.get` supplies.
- The report keeps `overlapping_skills` as a set. `list(set)` has no specified order.
- DurationPolicy.CalculateMatchScore: the `if`/`elif` chains that set the skill and experience scores are calls to `SkillScore` and `ExperienceScore`. The qualification loop is the separate method `CountMatchedQualifications`.
- ItemCountPolicy.CalculateMatchScore: the qualification and experience loops are the separate methods `CountMatchedQualifications` and `CountMatchedExperience`.
