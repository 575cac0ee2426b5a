/** The web application's skill-gap logic: its two tables, the
    comprehension-based strong-subject selector, and the computations behind
    the `/recommend` and `/recommend_ui` routes. HTTP handling and page
    rendering are not modelled: the routes become functions from the student
    record and the career string to a result value. */
module App {
  import opened SkillGap

  /** The subject columns in the declaration order of `subject_skill_map`. */
  const SubjectOrder: seq<string> := [
    "math_score", "physics_score", "chemistry_score", "biology_score",
    "english_score", "geography_score", "history_score"
  ]

  const SubjectSkillMap: Table := map[
    "math_score" := ["problem solving", "statistics"],
    "physics_score" := ["analytical thinking"],
    "chemistry_score" := ["data analysis"],
    "biology_score" := ["research skills"],
    "english_score" := ["communication"],
    "geography_score" := ["data interpretation"],
    "history_score" := ["critical thinking"]
  ]

  const CareerSkillMap: Table := map[
    "data scientist" := ["statistics", "data analysis", "problem solving", "analytical thinking", "communication"],
    "software engineer" := ["problem solving", "analytical thinking", "critical thinking"],
    "analyst" := ["data analysis", "data interpretation", "communication"],
    "researcher" := ["research skills", "analytical thinking", "communication"],
    "doctor" := ["research skills", "analytical thinking", "communication", "data analysis"],
    "lawyer" := ["critical thinking", "communication", "data interpretation"],
    "teacher" := ["communication", "critical thinking", "research skills"],
    "scientist" := ["research skills", "analytical thinking", "data analysis", "problem solving"],
    "business owner" := ["problem solving", "communication", "data interpretation", "analytical thinking"],
    "government officer" := ["data interpretation", "communication", "critical thinking", "analytical thinking"],
    "artist" := ["critical thinking", "communication"]
  ]

  /** The careers the "not found" message of `/recommend_ui` suggests, in
      the order it names them. */
  const SuggestedCareers: seq<string> := [
    "data scientist", "software engineer", "analyst", "researcher", "doctor",
    "lawyer", "teacher", "scientist", "business owner", "government officer", "artist"
  ]

  /** The declared subject order lists each key of the subject table once. */
  lemma SubjectOrderListsSubjectTable()
    ensures IsKeyOrder(SubjectOrder, SubjectSkillMap)
  {
  }

  /** The student record has a score for every subject of the table. */
  predicate HasAllScores(row: Scores) {
    HasScoresFor(row, SubjectOrder)
  }

  /** `get_strong_subjects`: the subjects whose score reaches the threshold
      (inclusive), in declaration order, each once. */
  function GetStrongSubjects(row: Scores, threshold: int): (r: seq<string>)
    requires HasAllScores(row)
    ensures forall s :: s in r <==> s in SubjectSkillMap && row[s] >= threshold
    ensures IsSubsequence(r, SubjectOrder)
    ensures NoDuplicates(r)
  {
    var r := StrongAmong(SubjectOrder, row, threshold);
    SubsequenceNoDuplicates(r, SubjectOrder);
    r
  }

  /** A subject's skills are derived exactly when its score reaches the
      threshold. */
  lemma CurrentSkillsMeaning(row: Scores, threshold: int, skill: string)
    requires HasAllScores(row)
    ensures skill in DerivedSkills(SubjectSkillMap, GetStrongSubjects(row, threshold))
        <==> exists s :: s in SubjectOrder && row[s] >= threshold && Unlocks(SubjectSkillMap, s, skill)
  {
    var strong := GetStrongSubjects(row, threshold);
    DerivedSkillsMembership(SubjectSkillMap, strong);
    if skill in DerivedSkills(SubjectSkillMap, strong) {
      var s :| s in strong && Unlocks(SubjectSkillMap, s, skill);
      assert s in SubjectOrder && row[s] >= threshold;
    }
    if exists s :: s in SubjectOrder && row[s] >= threshold && Unlocks(SubjectSkillMap, s, skill) {
      var s :| s in SubjectOrder && row[s] >= threshold && Unlocks(SubjectSkillMap, s, skill);
      assert s in strong;
    }
  }

  // ---------------------------------------------------------------------
  // The /recommend route
  // ---------------------------------------------------------------------

  /** What `/recommend` reports about one student. */
  datatype GapReport = GapReport(
    careerAspiration: string,
    strongSubjects: seq<string>,
    currentSkills: set<string>,
    skillsToLearnNext: set<string>)

  /** `/recommend` for the student record `user` whose career aspiration is
      `careerAspiration`: lower-case the career, derive the current skills
      from the strong subjects at the default threshold, and report the
      required skills not yet held. An unknown career has no requirements. */
  function Recommend(user: Scores, careerAspiration: string): (g: GapReport)
    requires HasAllScores(user)
    ensures g.careerAspiration == Lower(careerAspiration)
    ensures g.strongSubjects == GetStrongSubjects(user, DefaultThreshold)
    ensures g.currentSkills == DerivedSkills(SubjectSkillMap, g.strongSubjects)
    ensures g.skillsToLearnNext !! g.currentSkills
    ensures forall k :: k in g.skillsToLearnNext ==> k in Lookup(CareerSkillMap, g.careerAspiration)
    ensures forall k :: k in Lookup(CareerSkillMap, g.careerAspiration) ==> k in g.skillsToLearnNext || k in g.currentSkills
    ensures g.careerAspiration !in CareerSkillMap ==> g.skillsToLearnNext == {}
  {
    var career := Lower(careerAspiration);
    var strong := GetStrongSubjects(user, DefaultThreshold);
    var current := DerivedSkills(SubjectSkillMap, strong);
    var required := Lookup(CareerSkillMap, career);
    GapReport(career, strong, current, MissingSkills(required, current))
  }

  /** End to end: a skill is still to learn exactly when the (lower-cased)
      career requires it and no subject scoring at least 75 gives it. */
  lemma SkillsToLearnMeaning(user: Scores, careerAspiration: string, skill: string)
    requires HasAllScores(user)
    ensures skill in Recommend(user, careerAspiration).skillsToLearnNext
        <==> Lower(careerAspiration) in CareerSkillMap
             && skill in CareerSkillMap[Lower(careerAspiration)]
             && forall s :: s in SubjectOrder && user[s] >= DefaultThreshold ==> !Unlocks(SubjectSkillMap, s, skill)
  {
    CurrentSkillsMeaning(user, DefaultThreshold, skill);
  }

  // ---------------------------------------------------------------------
  // The /recommend_ui route
  // ---------------------------------------------------------------------

  datatype Option<T> = None | Some(value: T)

  /** `request.args.get("career", "")`. */
  function CareerArgument(param: Option<string>): string {
    match param
    case None => ""
    case Some(c) => c
  }

  /** What `/recommend_ui` renders. */
  datatype UiOutcome =
    | CareerMissing
    | CareerNotFound(career: string, suggestions: seq<string>)
    | Guidance(career: string, skills: set<string>, currentSkills: set<string>, requiredSkills: seq<string>)

  /** The student record is consulted only once the career is non-empty. */
  predicate UiPrecondition(user: Scores, param: Option<string>) {
    CareerArgument(param) != "" ==> HasAllScores(user)
  }

  /** `/recommend_ui`: an empty career is refused before the record is
      read; an unknown career (empty requirement list) is reported as not
      found; otherwise the gap, the current skills and the requirement list
      are rendered. */
  function RecommendUi(user: Scores, param: Option<string>): (o: UiOutcome)
    requires UiPrecondition(user, param)
    ensures o.CareerMissing? <==> CareerArgument(param) == ""
    ensures o.CareerNotFound? <==> CareerArgument(param) != "" && Lower(CareerArgument(param)) !in CareerSkillMap
    ensures o.CareerNotFound? ==> o.career == Lower(CareerArgument(param)) && o.suggestions == SuggestedCareers
    ensures o.Guidance? ==> o.career == Lower(CareerArgument(param)) && o.career in CareerSkillMap
                            && o.requiredSkills == CareerSkillMap[o.career]
    ensures o.Guidance? ==> o.skills !! o.currentSkills && SetOf(o.requiredSkills) <= o.skills + o.currentSkills
                            && o.skills <= SetOf(o.requiredSkills)
    ensures o.Guidance? ==> o.currentSkills == DerivedSkills(SubjectSkillMap, GetStrongSubjects(user, DefaultThreshold))
                            && o.skills == MissingSkills(o.requiredSkills, o.currentSkills)
  {
    var career := Lower(CareerArgument(param));
    if career == "" then CareerMissing
    else
      var strong := GetStrongSubjects(user, DefaultThreshold);
      var current := DerivedSkills(SubjectSkillMap, strong);
      var required := Lookup(CareerSkillMap, career);
      if required == [] then
        CareerRequirementsNonEmpty();
        CareerNotFound(career, SuggestedCareers)
      else
        Guidance(career, MissingSkills(required, current), current, required)
  }

  /** Every career of the table requires at least one skill. */
  lemma CareerRequirementsNonEmpty()
    ensures forall c :: c in CareerSkillMap ==> CareerSkillMap[c] != []
  {
  }

  /** The "not found" test of `/recommend_ui` (an empty requirement list)
      holds exactly for careers that are not in the table. */
  lemma NotFoundTestIsAbsence(career: string)
    ensures Lookup(CareerSkillMap, career) == [] <==> career !in CareerSkillMap
  {
    CareerRequirementsNonEmpty();
    EmptyLookupIffAbsent(CareerSkillMap, career);
  }

  /** The careers suggested by the "not found" message are exactly the
      careers of the table, each named once. */
  lemma SuggestionsAreTheKnownCareers()
    ensures IsKeyOrder(SuggestedCareers, CareerSkillMap)
  {
  }

  /** All career names of the table are lower case, so lower-casing the
      user's input never prevents a match. */
  lemma CareerNamesAreLowerCase(career: string)
    requires career in CareerSkillMap
    ensures Lower(career) == career
  {
    LowerKeepsLowerCase(career);
  }

  /** For a known career the two routes agree on the current skills and on
      the skills to learn. */
  lemma UiAgreesWithRecommend(user: Scores, careerAspiration: string)
    requires HasAllScores(user)
    requires Lower(careerAspiration) in CareerSkillMap
    ensures RecommendUi(user, Some(careerAspiration)).Guidance?
    ensures RecommendUi(user, Some(careerAspiration)).skills == Recommend(user, careerAspiration).skillsToLearnNext
    ensures RecommendUi(user, Some(careerAspiration)).currentSkills == Recommend(user, careerAspiration).currentSkills
  {
    var career := Lower(careerAspiration);
    assert career != "";
    NotFoundTestIsAbsence(career);
  }

  // ---------------------------------------------------------------------
  // Worked examples
  // ---------------------------------------------------------------------

  /** The scores of `user` reach the default threshold in exactly the
      subjects `strong`. */
  predicate StrongExactlyIn(user: Scores, strong: seq<string>)
    requires HasAllScores(user)
  {
    forall s :: s in SubjectOrder ==> (user[s] >= DefaultThreshold <==> s in strong)
  }

  /** A student strong in math, chemistry and english only. */
  const StrongStudent: Scores := map[
    "math_score" := 80, "physics_score" := 60, "chemistry_score" := 90, "biology_score" := 50,
    "english_score" := 85, "geography_score" := 40, "history_score" := 30
  ]

  lemma StrongStudentScores()
    ensures HasAllScores(StrongStudent)
    ensures StrongExactlyIn(StrongStudent, ["math_score", "chemistry_score", "english_score"])
  {
  }

  /** A student strong in exactly math, chemistry and english has these
      three strong subjects, in declaration order. */
  lemma MathChemistryEnglishSelected(user: Scores)
    requires HasAllScores(user)
    requires StrongExactlyIn(user, ["math_score", "chemistry_score", "english_score"])
    ensures GetStrongSubjects(user, DefaultThreshold) == ["math_score", "chemistry_score", "english_score"]
  {
    var strong := ["math_score", "chemistry_score", "english_score"];
    SubsequenceExtend([], [], "math_score");
    SubsequenceExtend(["math_score"], ["math_score"], "physics_score");
    var o2 := ["math_score", "physics_score"];
    SubsequenceExtend(["math_score"], o2, "chemistry_score");
    var o3 := o2 + ["chemistry_score"];
    SubsequenceExtend(["math_score", "chemistry_score"], o3, "biology_score");
    var o4 := o3 + ["biology_score"];
    SubsequenceExtend(["math_score", "chemistry_score"], o4, "english_score");
    var o5 := o4 + ["english_score"];
    assert strong == ["math_score", "chemistry_score"] + ["english_score"];
    SubsequenceExtend(strong, o5, "geography_score");
    var o6 := o5 + ["geography_score"];
    SubsequenceExtend(strong, o6, "history_score");
    assert SubjectOrder == o6 + ["history_score"];
    StrongAmongIsUnique(SubjectOrder, user, DefaultThreshold, strong);
  }

  /** Math and chemistry give three skills between them. */
  lemma MathChemistrySkills()
    ensures DerivedSkills(SubjectSkillMap, ["math_score", "chemistry_score"])
         == {"problem solving", "statistics", "data analysis"}
  {
    var t := SubjectSkillMap;
    calc {
      DerivedSkills(t, ["math_score", "chemistry_score"]);
      { assert ["math_score", "chemistry_score"] == [] + ["math_score"] + ["chemistry_score"];
        DerivedSkillsSnoc(t, [], "math_score");
        DerivedSkillsSnoc(t, ["math_score"], "chemistry_score"); }
      DerivedSkills(t, []) + SetOf(t["math_score"]) + SetOf(t["chemistry_score"]);
      { assert t["math_score"] == ["problem solving", "statistics"];
        assert t["chemistry_score"] == ["data analysis"]; }
      ({"problem solving", "statistics"} + {"data analysis"});
    }
  }

  /** Math, chemistry and english give four skills between them. */
  lemma MathChemistryEnglishSkills()
    ensures DerivedSkills(SubjectSkillMap, ["math_score", "chemistry_score", "english_score"])
         == {"problem solving", "statistics", "data analysis", "communication"}
  {
    var t := SubjectSkillMap;
    calc {
      DerivedSkills(t, ["math_score", "chemistry_score", "english_score"]);
      { assert ["math_score", "chemistry_score", "english_score"]
            == ["math_score", "chemistry_score"] + ["english_score"];
        DerivedSkillsSnoc(t, ["math_score", "chemistry_score"], "english_score"); }
      DerivedSkills(t, ["math_score", "chemistry_score"]) + SetOf(t["english_score"]);
      { MathChemistrySkills(); }
      ({"problem solving", "statistics", "data analysis"} + SetOf(t["english_score"]));
      { assert t["english_score"] == ["communication"]; }
      ({"problem solving", "statistics", "data analysis"} + {"communication"});
    }
  }

  /** Career names are matched case-insensitively. */
  lemma MixedCaseCareer()
    ensures Lower("Data Scientist") == "data scientist"
  {
  }

  /** A student strong in exactly math, chemistry and english who aims at
      "Data Scientist" holds four of the five required skills and lacks only
      analytical thinking. */
  lemma DataScientistExample(user: Scores)
    requires HasAllScores(user)
    requires StrongExactlyIn(user, ["math_score", "chemistry_score", "english_score"])
    ensures Recommend(user, "Data Scientist").currentSkills
         == {"problem solving", "statistics", "data analysis", "communication"}
    ensures Recommend(user, "Data Scientist").skillsToLearnNext == {"analytical thinking"}
  {
    var current := {"problem solving", "statistics", "data analysis", "communication"};
    var required := CareerSkillMap["data scientist"];
    assert SetOf(required) - current == {"analytical thinking"} by {
      assert required == ["statistics", "data analysis", "problem solving", "analytical thinking", "communication"];
    }
    var g := Recommend(user, "Data Scientist");
    assert g.careerAspiration == "data scientist" by {
      MixedCaseCareer();
    }
    assert g.strongSubjects == ["math_score", "chemistry_score", "english_score"] by {
      MathChemistryEnglishSelected(user);
    }
    assert g.currentSkills == current by {
      MathChemistryEnglishSkills();
    }
    assert g.skillsToLearnNext == SetOf(required) - current;
  }

  /** A student with no strong subject lacks every skill the career needs. */
  lemma NoStrongSubjectMeansAllMissing(user: Scores, careerAspiration: string)
    requires HasAllScores(user)
    requires StrongExactlyIn(user, [])
    ensures Recommend(user, careerAspiration).strongSubjects == []
    ensures Recommend(user, careerAspiration).currentSkills == {}
    ensures Recommend(user, careerAspiration).skillsToLearnNext
         == SetOf(Lookup(CareerSkillMap, Lower(careerAspiration)))
  {
  }

  /** A student with no strong subject who aims at "artist" lacks both
      required skills. */
  lemma ArtistExample(user: Scores)
    requires HasAllScores(user)
    requires StrongExactlyIn(user, [])
    ensures Recommend(user, "artist").skillsToLearnNext == {"critical thinking", "communication"}
  {
    var required := ["critical thinking", "communication"];
    assert Lookup(CareerSkillMap, "artist") == required;
    assert SetOf(required) == {"critical thinking", "communication"};
    LowerKeepsLowerCase("artist");
    NoStrongSubjectMeansAllMissing(user, "artist");
  }

  /** An unrecognised career is reported as not found, with the eleven
      known careers as suggestions; an empty or absent career is refused
      whatever the record holds. */
  lemma UnknownCareerExample(user: Scores, anyRecord: Scores)
    requires HasAllScores(user)
    ensures RecommendUi(user, Some("astronaut")) == CareerNotFound("astronaut", SuggestedCareers)
    ensures RecommendUi(anyRecord, Some("")) == CareerMissing
    ensures RecommendUi(anyRecord, None) == CareerMissing
  {
    assert "astronaut" !in CareerSkillMap;
    LowerKeepsLowerCase("astronaut");
  }
}
