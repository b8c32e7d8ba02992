/** The exam setup screen of components/Setup.tsx: restoring the profile,
    autosaving the material, the question-count field, the syllabus
    analysis, clearing study data, assembling the exam configuration, and the
    weakest-topics panel. File extraction and the remote analysis call are
    outside the model; the analysis reply is an input. */
module Setup {
  import opened Types
  import Text
  import Rounding
  import StableSort
  import AuthStore
  import GenAI

  /** Material shorter than this is refused by every mode but the math tutor. */
  const MinMaterial := 50
  /** Material longer than this is autosaved to the profile. */
  const AutosaveThreshold := 10
  /** Rows in the analytics panel. */
  const AnalyticsRows := 5
  /** A topic below this percentage is shown as weak. */
  const WeakBelow := 60

  const StrictPrompt := "You are a strict, formal academic professor. You demand precise answers and do not tolerate vague guessing."
  const SocraticPrompt := "You are a helpful tutor who uses the Socratic method. If the user answers wrongly, guide them with a hint question."
  const EncouragingPrompt := "You are a high-energy study coach. Keep the user motivated even if they fail."

  /** The examiner prompt for a style id, falling back to the first style. */
  function StylePrompt(examinerId: string): (r: string)
    ensures examinerId == "strict" ==> r == StrictPrompt
    ensures examinerId == "socratic" ==> r == SocraticPrompt
    ensures examinerId == "encouraging" ==> r == EncouragingPrompt
    ensures r in {StrictPrompt, SocraticPrompt, EncouragingPrompt}
    ensures examinerId !in {"strict", "socratic", "encouraging"} ==> r == StrictPrompt
  {
    if examinerId == "socratic" then SocraticPrompt
    else if examinerId == "encouraging" then EncouragingPrompt
    else StrictPrompt
  }

  /** The eight exam languages offered. */
  const Languages: seq<string> :=
    ["English", "Spanish", "Basque", "Catalan", "Valencian", "Galician", "French", "German"]

  datatype Form = Form(
    studyMaterial: string,
    difficulty: string,
    examinerId: string,
    language: string,
    examFormat: ExamFormat,
    isAnalyzed: bool,
    recommendedCount: int,
    minCount: int,
    userQuestionCount: int,
    examPlan: seq<string>,
    stats: seq<StatEntry>)

  /** The form as first rendered. */
  function Initial(systemLanguage: string): Form {
    Form("", "Hard", "strict", systemLanguage, Open, false, 5, 3, 5, [], [])
  }

  // ---------------------------------------------------------------- profile

  /** The exam language after loading a profile: a saved, non-empty language
      that is one of the eight offered, otherwise the system language. */
  function RestoredLanguage(saved: string, systemLanguage: string): (r: string)
    ensures saved != "" && saved in Languages ==> r == saved
    ensures !(saved != "" && saved in Languages) ==> r == systemLanguage
  {
    if saved != "" && saved in Languages then saved else systemLanguage
  }

  /** A restored language is always either offered or the system language. */
  lemma RestoredLanguageSupported(saved: string, systemLanguage: string)
    ensures RestoredLanguage(saved, systemLanguage) in Languages || RestoredLanguage(saved, systemLanguage) == systemLanguage
  {
  }

  /** The profile-load effect: a non-empty saved syllabus replaces the
      material, the language is restored, and stored statistics are shown. */
  function OnProfileLoaded(f: Form, p: UserProfile, systemLanguage: string): (r: Form)
    ensures r.studyMaterial == if p.savedSyllabus != "" then p.savedSyllabus else f.studyMaterial
    ensures r.language == RestoredLanguage(p.lastLanguage, systemLanguage)
    ensures r.stats == if p.topicStats.Some? then p.topicStats.value else f.stats
    ensures r == f.(studyMaterial := r.studyMaterial, language := r.language, stats := r.stats)
  {
    f.(studyMaterial := if p.savedSyllabus != "" then p.savedSyllabus else f.studyMaterial,
       language := RestoredLanguage(p.lastLanguage, systemLanguage),
       stats := if p.topicStats.Some? then p.topicStats.value else f.stats)
  }

  /** The autosave effect: only material longer than 10 characters is saved,
      together with the exam language, into the user's profile. */
  function Autosave(f: Form, st: AuthStore.Store, userId: string): (r: AuthStore.Store)
    ensures |f.studyMaterial| <= AutosaveThreshold ==> r == st
    ensures r.users == st.users && r.current == st.current
  {
    if |f.studyMaterial| > AutosaveThreshold then
      var p := AuthStore.GetUserProfile(st, userId);
      AuthStore.SaveUserProfile(st, p.(savedSyllabus := f.studyMaterial, lastLanguage := f.language))
    else st
  }

  /** After an autosave of long material, reloading the profile restores the
      material and (when offered) the language. */
  lemma AutosaveThenLoad(f: Form, st: AuthStore.Store, userId: string, systemLanguage: string)
    requires AuthStore.ProfilesKeyed(st)
    requires |f.studyMaterial| > AutosaveThreshold
    ensures var p := AuthStore.GetUserProfile(Autosave(f, st, userId), userId);
      && p.savedSyllabus == f.studyMaterial
      && p.lastLanguage == f.language
      && OnProfileLoaded(f, p, systemLanguage).studyMaterial == f.studyMaterial
      && (f.language in Languages ==> OnProfileLoaded(f, p, systemLanguage).language == f.language)
  {
  }

  /** `parseInt(value) || 1`; `parsed` is the value parseInt produced, None for NaN. */
  function QuestionCountInput(parsed: Option<int>): (r: int)
    ensures r != 0
    ensures parsed.Some? && parsed.value != 0 ==> r == parsed.value
    ensures parsed.None? || parsed.value == 0 ==> r == 1
  {
    if parsed.Some? && parsed.value != 0 then parsed.value else 1
  }

  /** `handleAnalyze`: short material is not analysed; otherwise the reply
      sets the counts and the plan, and the requested count becomes the
      recommended one. */
  function HandleAnalyze(f: Form, reply: Result<Option<seq<string>>>): (r: Form)
    ensures |f.studyMaterial| < MinMaterial ==> r == f
    ensures |f.studyMaterial| >= MinMaterial ==>
      var a := GenAI.AnalyzeSyllabus(reply);
      && r.isAnalyzed && r.recommendedCount == a.recommendedQuestions && r.minCount == a.minQuestions
      && r.examPlan == a.topics && r.userQuestionCount == a.recommendedQuestions
      && r.minCount <= r.userQuestionCount
    ensures r == f.(recommendedCount := r.recommendedCount, minCount := r.minCount, examPlan := r.examPlan,
                    userQuestionCount := r.userQuestionCount, isAnalyzed := r.isAnalyzed)
  {
    if |f.studyMaterial| < MinMaterial then f
    else
      var a := GenAI.AnalyzeSyllabus(reply);
      GenAI.AnalysisBounds(reply);
      f.(recommendedCount := a.recommendedQuestions, minCount := a.minQuestions, examPlan := a.topics,
         userQuestionCount := a.recommendedQuestions, isAnalyzed := true)
  }

  /** The syllabus `handleAnalyze` sends for analysis: none for material
      under 50 characters, otherwise its first 90000 characters. */
  function AnalysisRequest(f: Form): (r: Option<string>)
    ensures r.None? <==> |f.studyMaterial| < MinMaterial
    ensures r.Some? ==> r.value <= f.studyMaterial
    ensures r.Some? ==> |r.value| == if |f.studyMaterial| <= GenAI.AnalysisExcerpt then |f.studyMaterial| else GenAI.AnalysisExcerpt
  {
    if |f.studyMaterial| < MinMaterial then None else Some(GenAI.AnalysisPrompt(f.studyMaterial))
  }

  /** `handleClearData`: when the confirmation is declined nothing happens;
      otherwise the profile's study data and the form's material,
      statistics, analysis and plan are reset, and the other fields of the
      form are kept. */
  function HandleClearData(f: Form, st: AuthStore.Store, userId: string, confirmed: bool): (r: (Form, AuthStore.Store))
    ensures !confirmed ==> r == (f, st)
    ensures confirmed ==> r.1 == AuthStore.ClearUserStudyData(st, userId)
    ensures confirmed ==> r.0.studyMaterial == "" && r.0.stats == [] && !r.0.isAnalyzed && r.0.examPlan == []
    ensures confirmed ==> r.0.recommendedCount == 5 && r.0.minCount == 3
    ensures r.0 == f.(studyMaterial := r.0.studyMaterial, stats := r.0.stats, isAnalyzed := r.0.isAnalyzed,
                      examPlan := r.0.examPlan, recommendedCount := r.0.recommendedCount, minCount := r.0.minCount)
  {
    if !confirmed then (f, st)
    else
      (f.(studyMaterial := "", stats := [], isAnalyzed := false, examPlan := [], recommendedCount := 5, minCount := 3),
       AuthStore.ClearUserStudyData(st, userId))
  }

  /** Cleared data stays cleared: the emptied material is not autosaved, and
      reloading the profile shows neither material nor statistics. */
  lemma ClearThenReload(f: Form, st: AuthStore.Store, userId: string, systemLanguage: string)
    requires AuthStore.ProfilesKeyed(st)
    ensures var (f', st') := HandleClearData(f, st, userId, true);
      var loaded := OnProfileLoaded(f', AuthStore.GetUserProfile(st', userId), systemLanguage);
      && Autosave(f', st', userId) == st'
      && loaded.studyMaterial == ""
      && loaded.stats == []
  {
    var (f', st') := HandleClearData(f, st, userId, true);
    AuthStore.ClearThenGet(st, userId);
  }

  // ---------------------------------------------------------------- starting

  /** `handleStart`: None when the alert refuses short material; otherwise
      the configuration handed to `onStart` together with the mode. */
  function HandleStart(f: Form, mode: GameMode): (r: Option<(GameConfig, GameMode)>)
    ensures r.None? <==> mode != MathTutor && |f.studyMaterial| < MinMaterial
    ensures r.Some? ==>
      var c := r.value.0;
      && r.value.1 == mode
      && c.studyMaterial == f.studyMaterial && c.difficulty == f.difficulty
      && c.language == f.language && c.examFormat == f.examFormat
      && c.examinerStyle == StylePrompt(f.examinerId)
      && c.totalQuestions == f.userQuestionCount
      && c.minQuestions == Some(f.minCount)
      && c.examPlan.Some? && c.staticQuestions.None?
      && (|f.examPlan| == 0 ==> c.examPlan.value == [])
      && (|f.examPlan| > 0 ==> c.examPlan.value == Text.SliceTo(f.examPlan, f.userQuestionCount))
  {
    if mode != MathTutor && |f.studyMaterial| < MinMaterial then None
    else
      var plan := if |f.examPlan| > 0 then Text.SliceTo(f.examPlan, f.userQuestionCount) else [];
      Some((GameConfig(f.studyMaterial, StylePrompt(f.examinerId), f.difficulty, f.language, f.examFormat,
                       f.userQuestionCount, Some(plan), Some(f.minCount), None), mode))
  }

  /** The emitted plan is the first topics of the analysis, in order: one per
      requested question when the count is positive and within the plan. */
  lemma StartPlanIsPrefix(f: Form, mode: GameMode)
    requires HandleStart(f, mode).Some?
    ensures var plan := HandleStart(f, mode).value.0.examPlan.value;
      && plan <= f.examPlan
      && (0 <= f.userQuestionCount <= |f.examPlan| ==> |plan| == f.userQuestionCount)
  {
  }

  // ---------------------------------------------------------------- analytics

  /** correct / total, the key the panel sorts by. */
  function Rate(e: StatEntry): real {
    if e.stat.total == 0 then 0.0 else e.stat.correct as real / e.stat.total as real
  }

  ghost predicate Counted(stats: seq<StatEntry>) {
    forall i :: 0 <= i < |stats| ==> stats[i].stat.total > 0
  }

  datatype Row = Row(topic: string, percent: int, weak: bool)

  /** `Math.round(correct / total * 100)` on the exact ratio. */
  function Percent(s: TopicStat): int
    requires s.total > 0
  {
    Rounding.RoundDiv(100 * s.correct, s.total)
  }

  function ToRow(e: StatEntry): (r: Row)
    requires e.stat.total > 0
    ensures r.topic == e.topic && r.percent == Percent(e.stat)
    ensures r.weak <==> r.percent < WeakBelow
  {
    var p := Percent(e.stat);
    Row(e.topic, p, p < WeakBelow)
  }

  /** The panel: topics sorted by ascending rate (ties in record order), the
      first five, each with its rounded percentage and weakness flag. */
  function Analytics(stats: seq<StatEntry>): (rows: seq<Row>)
    requires Counted(stats)
  {
    var sorted := StableSort.Sort(stats, Rate);
    StableSort.SortCorrect(stats, Rate);
    var shown := Text.SliceTo(sorted, AnalyticsRows);
    assert forall i :: 0 <= i < |shown| ==> shown[i] in multiset(stats);
    seq(|shown|, i requires 0 <= i < |shown| => ToRow(shown[i]))
  }

  /** The panel shows min(5, n) rows, weakest first: they are the first rows
      of a stable ascending sort of the record by rate, and their percentages
      never decrease down the list. */
  lemma AnalyticsSpec(stats: seq<StatEntry>)
    requires Counted(stats)
    ensures var rows := Analytics(stats);
      var sorted := StableSort.Sort(stats, Rate);
      && |rows| == (if |stats| < AnalyticsRows then |stats| else AnalyticsRows)
      && multiset(sorted) == multiset(stats)
      && StableSort.Sorted(sorted, Rate)
      && (forall i :: 0 <= i < |rows| ==> rows[i].topic == sorted[i].topic && rows[i].percent == Percent(sorted[i].stat))
      && (forall i, j :: 0 <= i < j < |rows| ==> rows[i].percent <= rows[j].percent)
  {
    var sorted := StableSort.Sort(stats, Rate);
    StableSort.SortCorrect(stats, Rate);
    var rows := Analytics(stats);
    forall i | 0 <= i < |sorted|
      ensures sorted[i].stat.total > 0
    {
      assert sorted[i] in multiset(stats);
    }
    forall i, j | 0 <= i < j < |rows|
      ensures rows[i].percent <= rows[j].percent
    {
      var a, b := sorted[i].stat, sorted[j].stat;
      assert Rate(sorted[i]) <= Rate(sorted[j]);
      RateOrder(a.correct, a.total, b.correct, b.total);
      RoundDivOrdered(100 * a.correct, a.total, 100 * b.correct, b.total);
    }
  }

  lemma RateOrder(c1: int, t1: int, c2: int, t2: int)
    requires t1 > 0 && t2 > 0
    requires c1 as real / t1 as real <= c2 as real / t2 as real
    ensures (100 * c1) * t2 <= (100 * c2) * t1
  {
    var x, y := c1 as real / t1 as real, c2 as real / t2 as real;
    assert c1 as real == x * t1 as real;
    assert c2 as real == y * t2 as real;
    assert x * (t1 as real * t2 as real) <= y * (t1 as real * t2 as real);
    assert (c1 * t2) as real <= (c2 * t1) as real;
  }

  /** Rounding respects the order of ratios with different denominators. */
  lemma RoundDivOrdered(a1: int, b1: int, a2: int, b2: int)
    requires b1 > 0 && b2 > 0
    requires a1 * b2 <= a2 * b1
    ensures Rounding.RoundDiv(a1, b1) <= Rounding.RoundDiv(a2, b2)
  {
    var r1, r2 := Rounding.RoundDiv(a1, b1), Rounding.RoundDiv(a2, b2);
    assert (2 * r1 - 1) * b1 <= 2 * a1;
    assert 2 * a2 < (2 * r2 + 1) * b2;
    assert (2 * r1 - 1) * b1 * b2 <= 2 * a1 * b2 by {
      MulRight((2 * r1 - 1) * b1, 2 * a1, b2);
    }
    assert 2 * a2 * b1 < (2 * r2 + 1) * b2 * b1 by {
      MulRightStrict(2 * a2, (2 * r2 + 1) * b2, b1);
    }
    assert (2 * r1 - 1) * (b1 * b2) < (2 * r2 + 1) * (b1 * b2);
    MulCancelStrict(2 * r1 - 1, 2 * r2 + 1, b1 * b2);
  }

  lemma MulRight(x: int, y: int, k: int)
    requires k > 0
    ensures x <= y ==> x * k <= y * k
  {
  }

  lemma MulRightStrict(x: int, y: int, k: int)
    requires x < y && k > 0
    ensures x * k < y * k
  {
  }

  lemma MulCancelStrict(x: int, y: int, k: int)
    requires k > 0 && x * k < y * k
    ensures x < y
  {
    MulRight(y, x, k);
  }

  /** A topic is weak exactly when fewer than 59.5% of its answers were
      correct: the rounding moves the 60% threshold down by half a point. */
  lemma WeakIff(s: TopicStat)
    requires s.total > 0
    ensures Percent(s) < WeakBelow <==> 200 * s.correct < 119 * s.total
  {
    var p := Percent(s);
    var b := s.total;
    assert 2 * b * p - b <= 200 * s.correct < 2 * b * p + b;
    if p <= 59 {
      MulRight(p, 59, 2 * b);
      assert 2 * b * p <= 118 * b;
    } else {
      MulRight(60, p, 2 * b);
      assert 2 * b * p >= 120 * b;
    }
  }

  /** Sound counters give a percentage between 0 and 100. */
  lemma PercentInRange(s: TopicStat)
    requires 0 <= s.correct <= s.total && s.total > 0
    ensures 0 <= Percent(s) <= 100
  {
    Rounding.RoundDivScaledFraction(s.correct, s.total, 100);
  }
}
