/** The written exam of components/QuizGame.tsx: loading the next question,
    grading a submission (locally for multiple choice, through the grading
    reply otherwise), the running counters and the score figures shown. The
    generated question and the grading reply are inputs; speech playback of
    the question is outside the model. */
module QuizGame {
  import opened Types
  import Text
  import Rounding
  import AuthStore
  import GenAI

  const CorrectFeedback := "Correct!"
  const IncorrectPrefix := "Incorrect. The correct answer was: "
  /** What a template literal prints for an out-of-range option. */
  const Undefined := "undefined"

  datatype Quiz = Quiz(
    hasStarted: bool,
    current: Option<ExamQuestion>,
    loading: bool,
    userAnswer: string,
    hasImage: bool,
    result: Option<GenAI.Grade>,
    totalScore: int,
    questionCount: int,
    finished: bool)

  function Initial(): Quiz {
    Quiz(false, None, false, "", false, None, 0, 0, false)
  }

  // ---------------------------------------------------------------- loading

  /** `config.examPlan[questionCount]`: the plan entry for this question, if
      the plan exists and reaches that far. */
  function PlannedTopic(config: GameConfig, count: int): (r: Option<string>)
    ensures r.Some? <==> config.examPlan.Some? && 0 <= count < |config.examPlan.value|
    ensures r.Some? ==> r.value == config.examPlan.value[count]
  {
    if config.examPlan.Some? && 0 <= count < |config.examPlan.value| then Some(config.examPlan.value[count])
    else None
  }

  /** The question request `loadQuestion` issues: the position, the total and
      the planned topic. */
  datatype Request = Request(index: int, total: int, specificTopic: Option<string>)

  /** The topic the loaded question is filed under: a non-empty planned topic
      wins, then the model's non-empty topic, then "General". */
  function ChosenTopic(planned: Option<string>, generated: Option<string>): (r: string)
    ensures r != ""
    ensures planned.Some? && planned.value != "" ==> r == planned.value
    ensures !(planned.Some? && planned.value != "") && generated.Some? && generated.value != "" ==>
      r == generated.value
    ensures !(planned.Some? && planned.value != "") && !(generated.Some? && generated.value != "") ==>
      r == GenAI.GeneralTopic
  {
    if planned.Some? && planned.value != "" then planned.value
    else if generated.Some? && generated.value != "" then generated.value
    else GenAI.GeneralTopic
  }

  /** `loadQuestion`: once `questionCount >= totalQuestions` the quiz is
      finished and no question is requested; otherwise the answer area is
      reset and `generated`, the reply to the request, becomes the current
      question under its chosen topic. */
  function LoadQuestion(s: Quiz, config: GameConfig, generated: ExamQuestion): (r: (Quiz, Option<Request>))
    ensures s.questionCount >= config.totalQuestions <==> r.1.None?
    ensures r.1.None? ==> r.0 == s.(finished := true)
    ensures r.1.Some? ==>
      && r.1.value == Request(s.questionCount, config.totalQuestions, PlannedTopic(config, s.questionCount))
      && r.0.current == Some(generated.(topic := Some(ChosenTopic(PlannedTopic(config, s.questionCount), generated.topic))))
      && !r.0.loading && r.0.result.None? && r.0.userAnswer == "" && !r.0.hasImage
      && r.0.totalScore == s.totalScore && r.0.questionCount == s.questionCount && r.0.finished == s.finished
  {
    if s.questionCount >= config.totalQuestions then (s.(finished := true), None)
    else
      var planned := PlannedTopic(config, s.questionCount);
      var q := generated.(topic := Some(ChosenTopic(planned, generated.topic)));
      (s.(loading := false, result := None, userAnswer := "", hasImage := false, current := Some(q)),
       Some(Request(s.questionCount, config.totalQuestions, planned)))
  }

  /** Every loaded question carries a non-empty topic, so a logged-in user's
      statistics are updated on each accepted answer to it. */
  lemma LoadedTopicPresent(s: Quiz, config: GameConfig, generated: ExamQuestion)
    requires s.questionCount < config.totalQuestions
    ensures var q := LoadQuestion(s, config, generated).0.current;
      q.Some? && q.value.topic.Some? && q.value.topic.value != ""
  {
  }

  /** The question prompt a request leads to: `generateExamQuestion` called
      with the configuration's syllabus, difficulty, language and format, the
      position, the total and the planned topic. */
  function QuestionPromptOf(config: GameConfig, req: Request): GenAI.QuestionPrompt {
    GenAI.QuestionPromptFor(config.studyMaterial, config.difficulty, config.language, config.examFormat,
                            Some(req.index), Some(req.total), req.specificTopic)
  }

  /** A requested question is asked about the first 100000 characters of the
      syllabus, and about the planned topic when there is a non-empty one;
      otherwise the prompt names the question's position, counted from 1. */
  lemma LoadQuestionPrompt(s: Quiz, config: GameConfig, generated: ExamQuestion)
    requires s.questionCount < config.totalQuestions
    ensures var p := QuestionPromptOf(config, LoadQuestion(s, config, generated).1.value);
      var planned := PlannedTopic(config, s.questionCount);
      && p.syllabus <= config.studyMaterial
      && |p.syllabus| == (if |config.studyMaterial| <= GenAI.QuestionExcerpt then |config.studyMaterial| else GenAI.QuestionExcerpt)
      && p.format == config.examFormat && p.language == config.language && p.difficulty == config.difficulty
      && (planned.Some? && planned.value != "" ==> p.focus == GenAI.OnTopic(planned.value))
      && (!(planned.Some? && planned.value != "") ==> p.focus == GenAI.AtPosition(s.questionCount + 1, config.totalQuestions))
  {
  }

  // ---------------------------------------------------------------- grading

  /** The local multiple-choice grade: the answer's first position among the
      options must equal the recorded correct index. */
  function GradeChoice(options: seq<string>, correctIndex: int, answer: string): (r: GenAI.Grade)
    ensures r.correct <==> Text.IndexOf(options, answer) == correctIndex
    ensures r.score == if r.correct then 100 else 0
    ensures r.correct ==> r.feedback == CorrectFeedback
    ensures !r.correct && 0 <= correctIndex < |options| ==> r.feedback == IncorrectPrefix + options[correctIndex]
    ensures !r.correct && !(0 <= correctIndex < |options|) ==> r.feedback == IncorrectPrefix + Undefined
  {
    var isCorrect := Text.IndexOf(options, answer) == correctIndex;
    GenAI.Grade(isCorrect, if isCorrect then 100 else 0,
                if isCorrect then CorrectFeedback
                else IncorrectPrefix + (if 0 <= correctIndex < |options| then options[correctIndex] else Undefined))
  }

  /** With a valid correct index, an answer is right exactly when it is an
      option and its first occurrence sits at that index. */
  lemma ChoiceCorrectIff(options: seq<string>, correctIndex: int, answer: string)
    requires 0 <= correctIndex < |options|
    ensures GradeChoice(options, correctIndex, answer).correct <==>
      options[correctIndex] == answer && forall j :: 0 <= j < correctIndex ==> options[j] != answer
  {
  }

  /** With a correct index outside the options, no option is ever right; at
      -1, which `indexOf` returns for a miss, exactly the answers that are not
      options are graded correct. */
  lemma ChoiceOutOfRange(options: seq<string>, correctIndex: int, answer: string)
    requires !(0 <= correctIndex < |options|)
    ensures answer in options ==> !GradeChoice(options, correctIndex, answer).correct
    ensures GradeChoice(options, correctIndex, answer).correct <==> correctIndex == -1 && answer !in options
  {
  }

  /** Whether the question is graded locally. */
  predicate LocallyGraded(config: GameConfig, q: ExamQuestion) {
    config.examFormat == Test && q.options.Some? && q.correctAnswerIndex.Some?
  }

  /** The answer checked: a non-empty override, else the typed answer. */
  function AnswerToCheck(s: Quiz, override: Option<string>): string {
    OrElse(override, s.userAnswer)
  }

  /** A submission is ignored without a current question, and when the
      trimmed answer is empty and no image is attached. */
  predicate Accepted(s: Quiz, override: Option<string>) {
    s.current.Some? && (Text.Trim(AnswerToCheck(s, override)) != "" || s.hasImage)
  }

  /** `handleSubmit`. `reply` is the grading reply, consulted only when the
      question is not graded locally. The result is recorded, the score added,
      the count incremented, and the statistics of a logged-in user updated
      under the question's topic when it has one. */
  function HandleSubmit(s: Quiz, config: GameConfig, override: Option<string>, reply: GenAI.Grade,
                        st: AuthStore.Store): (r: (Quiz, AuthStore.Store))
    ensures !Accepted(s, override) ==> r == (s, st)
    ensures Accepted(s, override) ==>
      && r.0.result.Some?
      && r.0.questionCount == s.questionCount + 1
      && r.0.totalScore == s.totalScore + r.0.result.value.score
      && r.0 == s.(result := r.0.result, totalScore := r.0.totalScore, questionCount := r.0.questionCount)
    ensures Accepted(s, override) && LocallyGraded(config, s.current.value) ==>
      var q := s.current.value;
      r.0.result.value == GradeChoice(q.options.value, q.correctAnswerIndex.value, AnswerToCheck(s, override))
    ensures Accepted(s, override) && !LocallyGraded(config, s.current.value) ==> r.0.result.value == reply
    ensures r.1.users == st.users && r.1.current == st.current
  {
    if !Accepted(s, override) then (s, st)
    else
      var q := s.current.value;
      var answer := AnswerToCheck(s, override);
      var res := if LocallyGraded(config, q) then GradeChoice(q.options.value, q.correctAnswerIndex.value, answer)
                 else reply;
      var st' := if st.current.Some? && q.topic.Some? && q.topic.value != ""
                 then AuthStore.UpdateUserStats(st, st.current.value.id, q.topic.value, res.correct)
                 else st;
      (s.(result := Some(res), totalScore := s.totalScore + res.score, questionCount := s.questionCount + 1), st')
  }

  /** The grading prompt of an answer graded by the model: the current
      question, the checked answer, the first 50000 characters of the
      syllabus, the language, and the image note exactly when an image is
      attached. */
  function GradingPromptOf(s: Quiz, config: GameConfig, override: Option<string>): (r: GenAI.GradingPrompt)
    requires s.current.Some?
    ensures r.question == s.current.value.question && r.answer == AnswerToCheck(s, override)
    ensures r.syllabus <= config.studyMaterial
    ensures |r.syllabus| == if |config.studyMaterial| <= GenAI.GradingExcerpt then |config.studyMaterial| else GenAI.GradingExcerpt
    ensures r.language == config.language && (r.imageNote <==> s.hasImage)
  {
    GenAI.GradingPromptFor(s.current.value.question, AnswerToCheck(s, override), config.studyMaterial,
                           config.language, s.hasImage)
  }

  /** An accepted answer, by a logged-in user, to a question with a topic. */
  predicate RecordsStats(s: Quiz, override: Option<string>, st: AuthStore.Store) {
    Accepted(s, override) && st.current.Some? && s.current.value.topic.Some? && s.current.value.topic.value != ""
  }

  /** The statistics change exactly for an accepted answer by a logged-in
      user to a question with a topic; then the topic records the answer's
      correctness. */
  lemma SubmitUpdatesStats(s: Quiz, config: GameConfig, override: Option<string>, reply: GenAI.Grade,
                           st: AuthStore.Store)
    ensures var r := HandleSubmit(s, config, override, reply, st);
      && (RecordsStats(s, override, st) ==>
            r.1 == AuthStore.UpdateUserStats(st, st.current.value.id, s.current.value.topic.value,
                                             r.0.result.value.correct))
      && (!RecordsStats(s, override, st) ==> r.1 == st)
  {
  }

  // ---------------------------------------------------------------- score figures

  /** The running average in the header: `round(totalScore / questionCount)`,
      or 0 before the first answer. */
  function RunningAverage(s: Quiz): int {
    if s.questionCount > 0 then Rounding.RoundDiv(s.totalScore, s.questionCount) else 0
  }

  /** The final percentage: `round(totalScore / totalQuestions)`, undefined
      (NaN or an infinity) when there are no questions. A negative total,
      which the count input lets through, divides by that negative number. */
  function FinalFigure(s: Quiz, config: GameConfig): (r: Option<int>)
    ensures r.None? <==> config.totalQuestions == 0
    ensures r.Some? && config.totalQuestions > 0 ==>
      2 * config.totalQuestions * r.value - config.totalQuestions <= 2 * s.totalScore
      < 2 * config.totalQuestions * r.value + config.totalQuestions
    ensures r.Some? && config.totalQuestions < 0 ==>
      2 * config.totalQuestions * r.value - config.totalQuestions >= 2 * s.totalScore
      > 2 * config.totalQuestions * r.value + config.totalQuestions
  {
    if config.totalQuestions == 0 then None else Some(Rounding.RoundRatio(s.totalScore, config.totalQuestions))
  }

  /** Scores between 0 and 100 per answered question. */
  predicate ScoreBounded(s: Quiz) {
    0 <= s.totalScore <= 100 * s.questionCount
  }

  /** When every grade is a percentage, the counters stay bounded, whatever
      the submission. */
  lemma SubmitKeepsBound(s: Quiz, config: GameConfig, override: Option<string>, reply: GenAI.Grade,
                         st: AuthStore.Store)
    requires ScoreBounded(s)
    requires 0 <= reply.score <= 100
    ensures ScoreBounded(HandleSubmit(s, config, override, reply, st).0)
  {
  }

  /** With bounded counters the running average is a percentage. */
  lemma AverageIsPercentage(s: Quiz)
    requires ScoreBounded(s)
    ensures 0 <= RunningAverage(s) <= 100
  {
    if s.questionCount > 0 {
      Rounding.RoundDivMonotone(0, s.totalScore, s.questionCount);
      Rounding.RoundDivMonotone(s.totalScore, 100 * s.questionCount, s.questionCount);
      Rounding.RoundDivExact(0, s.questionCount);
      Rounding.RoundDivExact(100, s.questionCount);
    }
  }

  /** When every question was answered, the final figure is the running average. */
  lemma FinalIsAverageWhenComplete(s: Quiz, config: GameConfig)
    requires s.questionCount == config.totalQuestions > 0
    ensures FinalFigure(s, config) == Some(RunningAverage(s))
  {
  }
}
