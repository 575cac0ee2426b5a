/** The stand-alone recommender script: its own copies of the two tables
    (the career table has only four careers), a loop-based strong-subject
    selector, and the script body that computes one student's skill gap.
    Printing is not modelled; the script's final branch is returned as a
    flag. */
module Recommender {
  import opened SkillGap
  import App

  /** The subject columns in the declaration order of `subject_skill_map`. */
  const SubjectOrder: seq<string> := [
    "math_score", "physics_score", "chemistry_score", "biology_score",
    "english_score", "geography_score", "history_score"
  ]

  const SubjectSkillMap: Table := map[
    "math_score" := ["problem solving", "statistics"],
    "physics_score" := ["analytical thinking"],
    "chemistry_score" := ["data analysis"],
    "biology_score" := ["research skills"],
    "english_score" := ["communication"],
    "geography_score" := ["data interpretation"],
    "history_score" := ["critical thinking"]
  ]

  const CareerSkillMap: Table := map[
    "data scientist" := ["statistics", "data analysis", "problem solving", "analytical thinking", "communication"],
    "software engineer" := ["problem solving", "analytical thinking", "critical thinking"],
    "researcher" := ["research skills", "analytical thinking", "communication"],
    "analyst" := ["data analysis", "data interpretation", "communication"]
  ]

  /** The script's subject table is the web application's, in the same
      order; its four careers are among the application's eleven, with the
      same requirements. */
  lemma TablesAgreeWithApp()
    ensures SubjectOrder == App.SubjectOrder && SubjectSkillMap == App.SubjectSkillMap
    ensures forall c :: c in CareerSkillMap ==> c in App.CareerSkillMap && CareerSkillMap[c] == App.CareerSkillMap[c]
  {
  }

  /** `get_strong_subjects`: walk the subjects in declaration order and
      append each one whose score reaches the threshold. */
  method GetStrongSubjects(row: Scores, threshold: int) returns (strongSubjects: seq<string>)
    requires HasScoresFor(row, SubjectOrder)
    ensures strongSubjects == StrongAmong(SubjectOrder, row, threshold)
    ensures forall s :: s in strongSubjects <==> s in SubjectSkillMap && row[s] >= threshold
    ensures strongSubjects == App.GetStrongSubjects(row, threshold)
  {
    strongSubjects := [];
    for i := 0 to |SubjectOrder|
      invariant strongSubjects == StrongAmong(SubjectOrder[..i], row, threshold)
    {
      var subject := SubjectOrder[i];
      assert SubjectOrder[..i + 1] == SubjectOrder[..i] + [subject];
      StrongAmongSnoc(SubjectOrder[..i], subject, row, threshold);
      if row[subject] >= threshold {
        strongSubjects := strongSubjects + [subject];
      }
    }
    assert SubjectOrder[..|SubjectOrder|] == SubjectOrder;
    assert strongSubjects == App.GetStrongSubjects(row, threshold) by {
      TablesAgreeWithApp();
    }
    assert forall s :: s in strongSubjects <==> s in SubjectSkillMap && row[s] >= threshold by {
      TablesAgreeWithApp();
    }
  }

  /** The outcome of one run of the script. */
  datatype Guidance = Guidance(
    userCareer: string,
    strongSubjects: seq<string>,
    currentSkills: set<string>,
    requiredSkills: seq<string>,
    missingSkills: set<string>,
    hasFoundationalSkills: bool)

  /** The script body for the student record `user`: the hard-coded initial
      skill list is replaced by the skills derived from the strong subjects
      before the gap is computed, and the final message reports whether
      anything is missing. */
  method Run(user: Scores, careerAspiration: string) returns (g: Guidance)
    requires HasScoresFor(user, SubjectOrder)
    ensures g.userCareer == Lower(careerAspiration)
    ensures g.strongSubjects == StrongAmong(SubjectOrder, user, DefaultThreshold)
    ensures g.currentSkills == DerivedSkills(SubjectSkillMap, g.strongSubjects)
    ensures g.requiredSkills == Lookup(CareerSkillMap, g.userCareer)
    ensures g.missingSkills == MissingSkills(g.requiredSkills, g.currentSkills)
    ensures g.hasFoundationalSkills <==> forall k :: k in g.requiredSkills ==> k in g.currentSkills
  {
    var userCurrentSkills := {"python", "sql", "ml"};
    var userCareer := Lower(careerAspiration);
    var strongSubjects := GetStrongSubjects(user, DefaultThreshold);
    userCurrentSkills := DeriveSkillsFromSubjects(SubjectSkillMap, strongSubjects);
    var requiredSkills := Lookup(CareerSkillMap, userCareer);
    var missingSkills := MissingSkills(requiredSkills, userCurrentSkills);
    NoGapIffAllHeld(requiredSkills, userCurrentSkills);
    g := Guidance(userCareer, strongSubjects, userCurrentSkills, requiredSkills, missingSkills, missingSkills == {});
  }

  /** A career outside the script's four (for instance "doctor", which the
      web application knows) has no requirements, so nothing is missing. */
  lemma UnknownCareerHasNoGap(career: string, current: set<string>)
    requires career !in CareerSkillMap
    ensures MissingSkills(Lookup(CareerSkillMap, career), current) == {}
  {
  }

  /** Only the four listed careers are known; "doctor" is not among them. */
  lemma KnownCareers()
    ensures IsKeyOrder(["data scientist", "software engineer", "researcher", "analyst"], CareerSkillMap)
    ensures "doctor" !in CareerSkillMap && "doctor" in App.CareerSkillMap
  {
  }

  /** No career of the script requires any skill of the hard-coded initial
      profile: measured against that profile, every required skill would be
      missing, which is why the derived skills replace it. */
  lemma InitialProfileClosesNoGap(career: string)
    ensures MissingSkills(Lookup(CareerSkillMap, career), {"python", "sql", "ml"})
         == SetOf(Lookup(CareerSkillMap, career))
  {
  }
}
