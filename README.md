# Career skill guidance: the skill-gap engine

This project models the skill-gap logic of the Career Skill Guidance System.
The system takes one student's subject scores and a target career. It selects
the student's strong subjects, derives the student's current skills from them,
looks up the career's required skills, and reports the required skills the
student does not yet hold.

The same logic appears twice in the repository, and the model follows both:

- `skill_gap.dfy`, module `SkillGap`: the engine shared by both programs. Each
  operation takes its lookup tables as parameters.
  - `StrongAmong` is the order-preserving filter "score at least the threshold".
  - `DerivedSkills` is the union of the skills of the strong subjects.
    `DeriveSkillsFromSubjects` is the loop that both programs use to compute it.
  - `Lookup` is `dict.get(career, [])`.
  - `MissingSkills` is `set(required) - set(current)`.
  - `Lower` is `str.lower()` on ASCII letters.
- `app.dfy`, module `App`: the web application (`app.py`). It holds the
  7-subject and 11-career tables and the comprehension-based
  `get_strong_subjects`. It also holds the computations behind the
  `/recommend` route (`Recommend`) and the `/recommend_ui` route
  (`RecommendUi`), with worked examples.
- `recommender.dfy`, module `Recommender`: the stand-alone script
  (`src/recommender.py`). It has its own copies of the tables, and its career
  table has only four careers. It also holds the loop-based
  `get_strong_subjects` and the script body (`Run`).

A student record is a `map<string, int>` from subject column to score. Python
raises `KeyError` when a subject column is missing, so every operation that
reads the record requires all seven subject keys. `/recommend_ui` rejects an
empty career before it reads the record, so there the requirement applies only
when the career is non-empty. `list(set(...))` gives no defined order in
Python, so current and missing skills are modelled as sets.

Three points about the code's behaviour:

- `dict.get` returns `[]` for an unknown career. `/recommend` therefore reports
  an empty gap for it, and `/recommend_ui` treats an empty requirement list as
  "not found". `App.NotFoundTestIsAbsence` proves that this test is true
  exactly when the career is absent from the 11-entry table, because every
  entry in that table is non-empty.
- Scores are not range-checked. A missing subject column raises `KeyError`,
  and the model makes it a precondition.
- The script's career table has four careers, not eleven. A career such as
  "doctor" therefore gets an empty requirement list there, and so an empty gap.

## Model

| member | source | states |
|---|---|---|
| `SkillGap.StrongAmong` | app.py:101-102 | A subject is in the result iff it is among the keys and its score is at least the threshold (equal counts). The result is a sub-sequence of the key order. |
| `SkillGap.StrongAmongSnoc` | src/recommender.py:61-63 | Considering one more subject appends it iff its score is `>= threshold`. Nothing else changes. |
| `SkillGap.StrongAmongIsUnique` | src/recommender.py:59-64 | Any order-preserving sub-list of duplicate-free keys that holds exactly the strong subjects equals the selection. The result is therefore fully determined by "filter in declaration order". |
| `SkillGap.DerivedSkills` | app.py:104-108 | Deriving from no subjects gives no skills. |
| `SkillGap.DerivedSkillsMembership` | app.py:104-108 | A skill is derived iff some given subject maps to it. |
| `SkillGap.DeriveSkillsFromSubjects` | src/recommender.py:68-72 | The loop that starts from the empty set and adds each subject's skills returns exactly the union of the skills of all given subjects. |
| `SkillGap.DerivedSkillsSnoc` | app.py:106-107 | Each loop step adds exactly the next subject's skills. |
| `SkillGap.DerivedSkillsDependOnlyOnSubjectSet` | app.py:105-108 | Two subject lists with the same elements give the same skills, so reordering or repeating subjects changes nothing. |
| `SkillGap.DerivedSkillsOfConcat` | src/recommender.py:69-71 | Deriving from `a + b` gives the union of deriving from `a` and from `b`. |
| `SkillGap.Lookup` | app.py:133 | A known career gives its table entry. An unknown career gives `[]`. |
| `SkillGap.EmptyLookupIffAbsent` | app.py:154-156 | When no table entry is empty, an empty lookup result means exactly that the career is absent. |
| `SkillGap.MissingSkills` | app.py:134 | The missing set is a subset of the required skills and is disjoint from the current skills. Together with the current skills it covers every required skill, so it equals required − current. |
| `SkillGap.MissingComplement` | src/recommender.py:91 | required − missing = required ∩ current. |
| `SkillGap.NothingHeldMeansAllMissing` | app.py:133-134 | With no current skill, the missing set is the whole required set. |
| `SkillGap.NoGapIffAllHeld` | src/recommender.py:98-102 | The missing set is empty iff every required skill is already held. This is the "already have the required foundational skills" branch. |
| `SkillGap.LowerChar` | app.py:129 | An ASCII upper-case letter becomes the letter 32 code points higher. Any other character is unchanged. The result is never upper case. |
| `SkillGap.Lower` | app.py:145 | Lower-casing keeps the length and lower-cases each character, so no upper-case letter remains. |
| `SkillGap.LowerKeepsLowerCase` | app.py:129 | A string without upper-case letters is unchanged by lower-casing. |
| `SkillGap.LowerIdempotent` | app.py:145 | Lower-casing twice is the same as lower-casing once. |
| `App.SubjectOrderListsSubjectTable` | app.py:22-30 | The declaration order lists each of the seven subjects of `subject_skill_map` exactly once. |
| `App.GetStrongSubjects` | app.py:101-102 | A subject is in the result iff it is a key of `subject_skill_map` and its score is at least the threshold. The result follows declaration order and has no duplicates. |
| `App.CurrentSkillsMeaning` | app.py:130-131 | A skill is current iff some subject scoring at least the threshold maps to it. |
| `App.Recommend` | app.py:124-134 | `/recommend` lower-cases the career and selects strong subjects at threshold 75. It derives current skills from them. The skills to learn are required by the career, disjoint from the current skills, and together with them cover the requirement. An unknown career gives an empty gap. |
| `App.SkillsToLearnMeaning` | app.py:127-134 | A skill is reported to learn iff the lower-cased career is known and requires it, and no subject scoring at least 75 gives it. |
| `App.RecommendUi` | app.py:143-171 | `/recommend_ui` reports a missing career iff the career argument is empty or absent. It reports "not found" iff the argument is non-empty and its lower-case form is not a known career; this result carries the suggested careers. Otherwise it renders the known career's requirement list, the current skills derived from the subjects scoring at least 75, and the gap required − current: a subset of the requirements, disjoint from the current skills, and covering the rest. |
| `App.CareerRequirementsNonEmpty` | app.py:35-96 | Every one of the eleven careers requires at least one skill. |
| `App.NotFoundTestIsAbsence` | app.py:154-156 | The test "`not required_skills`" is true exactly when the career is not in `career_skill_map`. |
| `App.SuggestionsAreTheKnownCareers` | app.py:160 | The careers suggested by the "not found" message are exactly the careers of the table, each named once. |
| `App.CareerNamesAreLowerCase` | app.py:35-96 | Every career name of the table is already lower case, so lower-casing the input never prevents a match. |
| `App.UiAgreesWithRecommend` | app.py:150-163 | For a known career, `/recommend_ui` renders guidance with the same gap and current skills as `/recommend`. |
| `App.MathChemistryEnglishSelected` | app.py:101-102 | A student who reaches 75 in exactly math, chemistry and english has strong subjects `[math_score, chemistry_score, english_score]`, in that order. |
| `App.MathChemistrySkills` | app.py:23-25 | Math and chemistry give problem solving, statistics and data analysis. |
| `App.MathChemistryEnglishSkills` | app.py:22-30 | Math, chemistry and english give problem solving, statistics, data analysis and communication. |
| `App.MixedCaseCareer` | app.py:129 | "Data Scientist" is looked up as "data scientist". |
| `App.DataScientistExample` | app.py:129-134 | That student aiming at "Data Scientist" holds four skills and misses only analytical thinking. |
| `App.StrongStudentScores` | app.py:101-102 | The scores math 80, physics 60, chemistry 90, biology 50, english 85, geography 40, history 30 are strong in exactly math, chemistry and english. |
| `App.NoStrongSubjectMeansAllMissing` | app.py:130-134 | With no subject at 75 or more, there are no strong subjects and no current skills, and the gap is the whole requirement set. |
| `App.ArtistExample` | app.py:92-95 | Such a student aiming at "artist" misses both critical thinking and communication. |
| `App.UnknownCareerExample` | app.py:145-161 | "astronaut" gives "not found" with the eleven suggestions. An empty or absent career gives the missing-career result whatever the record holds. |
| `Recommender.TablesAgreeWithApp` | src/recommender.py:26-55 | The script's subject table and order equal the application's. Each of its four careers is in the application's table with the same requirements. |
| `Recommender.GetStrongSubjects` | src/recommender.py:59-64 | The loop returns the declaration-order filter: a subject is appended iff its score is `>= threshold`. The result equals the application's comprehension form. |
| `Recommender.Run` | src/recommender.py:76-102 | The script lower-cases the career and selects strong subjects at threshold 75. It replaces the hard-coded skills with the derived ones, looks the career up in its four-career table, and computes missing = required − current. The "already have the skills" flag is set iff every required skill is held. |
| `Recommender.UnknownCareerHasNoGap` | src/recommender.py:89-91 | A career outside the four gives an empty missing set. |
| `Recommender.KnownCareers` | src/recommender.py:38-55 | The known careers are exactly data scientist, software engineer, researcher and analyst. "doctor" is not among them, although the application knows it. |
| `Recommender.InitialProfileClosesNoGap` | src/recommender.py:19 | Measured against the hard-coded profile ["python", "sql", "ml"], every required skill would be missing. The overwrite at line 80 is what makes the gap depend on the subjects. |

## Left out

- Flask set-up, routing, `jsonify`, `render_template` and the server run: the routes are modelled as functions returning a result value. Only `request.args.get("career", "")` is kept, as an optional argument.
- pandas CSV loading, `df.iloc[0]` and path resolution: the student record is a parameter. The record's `career_aspiration` column is passed as a separate string.
- All `print` output of the script: only the condition of its final branch is modelled, as a flag.
- The text of the error messages: outcomes are tagged. The careers named in the "not found" message are kept as a list.
- The order of lists built with `list(set(...))`, which Python leaves unspecified: current and missing skills are sets.
- `str.lower()` beyond ASCII: Unicode case mapping is not modelled.
- Scores are integers: pandas may deliver floating-point or missing values, and these are not modelled.
- `target_career` in the script (src/recommender.py:22) is assigned but never read, so it has no counterpart.
