/** Value types shared by the whole application, mirroring types.ts, plus the
    small wrappers (Option, Result, JSON scalars) that stand in for JavaScript's
    `undefined`, thrown errors and loosely typed AI replies. */
module Types {

  /** `undefined` (None) or a present value. */
  datatype Option<+T> = None | Some(value: T) {
    function GetOr(default: T): T {
      match this
      case Some(v) => v
      case None => default
    }
  }

  /** A completed operation or the message of the error it threw. */
  datatype Result<+T> = Ok(value: T) | Err(message: string)

  /** A JSON scalar as it may appear in a field of a parsed AI reply. */
  datatype Json = JNull | JBool(b: bool) | JNum(n: real) | JStr(s: string)

  /** JavaScript truthiness of an optional field (`!!json.field`). NaN is not
      representable by `JNum`, so every number other than 0 is truthy. */
  predicate Truthy(v: Option<Json>) {
    match v
    case None => false
    case Some(JNull) => false
    case Some(JBool(b)) => b
    case Some(JNum(n)) => n != 0.0
    case Some(JStr(s)) => s != ""
  }

  /** `a || b` for an optional string: the empty string is falsy. */
  function OrElse(a: Option<string>, b: string): string {
    if a.Some? && a.value != "" then a.value else b
  }

  datatype GameMode = SetupMode | LiveVoice | QuizSearch | LeaderboardMode | StudyHub | MathTutor

  datatype ExamFormat = Open | Test

  datatype ExamQuestion = ExamQuestion(
    question: string,
    contextSnippet: Option<string>,
    options: Option<seq<string>>,
    correctAnswerIndex: Option<int>,
    topic: Option<string>)

  datatype GameConfig = GameConfig(
    studyMaterial: string,
    examinerStyle: string,
    difficulty: string,
    language: string,
    examFormat: ExamFormat,
    totalQuestions: int,
    examPlan: Option<seq<string>>,
    minQuestions: Option<int>,
    staticQuestions: Option<seq<ExamQuestion>>)

  datatype FailedQuestion = FailedQuestion(question: ExamQuestion, timestamp: int)

  /** `isFriend` is optional in the source; absent reads as false. */
  datatype LeaderboardEntry = LeaderboardEntry(
    id: string, name: string, score: int, avatar: string, isFriend: bool, rank: Option<int>)

  datatype User = User(id: string, name: string, email: string, avatar: Option<string>)

  datatype TopicStat = TopicStat(correct: int, total: int)

  /** One key of the `topicStats` record. A JavaScript object enumerates its
      string keys in insertion order, so the record is an association list. */
  datatype StatEntry = StatEntry(topic: string, stat: TopicStat)

  datatype UserProfile = UserProfile(
    userId: string,
    savedSyllabus: string,
    lastLanguage: string,
    totalScore: int,
    themePreference: Option<string>,
    topicStats: Option<seq<StatEntry>>,
    isPro: Option<bool>,
    failedQuestions: Option<seq<FailedQuestion>>,
    learnedFlashcards: Option<seq<string>>,
    dailyUsage: Option<int>,
    lastUsageDate: Option<string>,
    customApiKey: Option<string>)

  datatype Flashcard = Flashcard(front: string, back: string)
}
