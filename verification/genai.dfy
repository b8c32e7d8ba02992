/** The deterministic post-processing in services/genai.ts. Each remote call
    is replaced by its reply, given as an input: `Err` stands for a call (or a
    JSON.parse of its text) that threw and was caught, and an absent
    `response.text` is `None`. Of each prompt the model keeps the syllabus
    excerpt it embeds and the arguments it passes on; the fixed wording is
    left out. */
module GenAI {
  import opened Types
  import Text

  // ---------------------------------------------------------------- prompt excerpts

  /** Characters of the syllabus embedded by the syllabus analysis and by the
      summary, outline and mindmap prompts. */
  const AnalysisExcerpt := 90000
  /** ... by the question prompt. */
  const QuestionExcerpt := 100000
  /** ... by the grading prompt. */
  const GradingExcerpt := 50000

  /** `studyMaterial.substring(0, limit)` as embedded in a prompt. */
  function Excerpt(material: string, limit: nat): (r: string)
    ensures r <= material
    ensures |r| == if |material| <= limit then |material| else limit
  {
    Text.Prefix(material, limit)
  }

  /** The three limits cut one syllabus into prefixes of one another, and a
      syllabus of at most 50000 characters reaches every prompt whole. */
  lemma ExcerptsNested(material: string)
    ensures Excerpt(material, GradingExcerpt) <= Excerpt(material, AnalysisExcerpt)
    ensures Excerpt(material, AnalysisExcerpt) <= Excerpt(material, QuestionExcerpt)
    ensures |material| <= GradingExcerpt ==>
      && Excerpt(material, GradingExcerpt) == material
      && Excerpt(material, AnalysisExcerpt) == material
      && Excerpt(material, QuestionExcerpt) == material
  {
    PrefixOfPrefix(Excerpt(material, GradingExcerpt), Excerpt(material, AnalysisExcerpt), material);
    PrefixOfPrefix(Excerpt(material, AnalysisExcerpt), Excerpt(material, QuestionExcerpt), material);
  }

  /** Of two prefixes of one string, the shorter is a prefix of the longer. */
  lemma PrefixOfPrefix(a: string, b: string, s: string)
    requires a <= s && b <= s && |a| <= |b|
    ensures a <= b
  {
    assert a == s[..|a|] && b == s[..|b|];
    assert b[..|a|] == s[..|a|];
  }

  /** The syllabus embedded in the `analyzeSyllabus` prompt. */
  function AnalysisPrompt(material: string): (syllabus: string)
    ensures syllabus <= material
    ensures |syllabus| == if |material| <= AnalysisExcerpt then |material| else AnalysisExcerpt
  {
    Excerpt(material, AnalysisExcerpt)
  }

  /** What the `generateExamQuestion` prompt is built from. */
  datatype QuestionPrompt = QuestionPrompt(
    syllabus: string, difficulty: string, language: string, format: ExamFormat, focus: TopicFocus)

  /** The `generateExamQuestion` prompt: the first 100000 characters of the
      syllabus, the difficulty, language and format as passed, and the topic
      instruction built from the position and the specific topic. */
  function QuestionPromptFor(material: string, difficulty: string, language: string, format: ExamFormat,
                             index: Option<int>, total: Option<int>, specificTopic: Option<string>): (r: QuestionPrompt)
    ensures r.syllabus <= material
    ensures |r.syllabus| == if |material| <= QuestionExcerpt then |material| else QuestionExcerpt
    ensures r.difficulty == difficulty && r.language == language && r.format == format
    ensures r.focus == TopicInstruction(specificTopic, index, total)
  {
    QuestionPrompt(Excerpt(material, QuestionExcerpt), difficulty, language, format,
                   TopicInstruction(specificTopic, index, total))
  }

  /** What the `validateExamAnswer` prompt is built from; `imageNote` is the
      line saying an image was attached. */
  datatype GradingPrompt = GradingPrompt(
    syllabus: string, question: string, answer: string, language: string, imageNote: bool)

  /** The `validateExamAnswer` prompt: the first 50000 characters of the
      syllabus, the question and answer as passed, and the image note exactly
      when an image is attached. */
  function GradingPromptFor(question: string, answer: string, material: string, language: string,
                            hasImage: bool): (r: GradingPrompt)
    ensures r.syllabus <= material
    ensures |r.syllabus| == if |material| <= GradingExcerpt then |material| else GradingExcerpt
    ensures r.question == question && r.answer == answer && r.language == language
    ensures r.imageNote <==> hasImage
  {
    GradingPrompt(Excerpt(material, GradingExcerpt), question, answer, language, hasImage)
  }

  // ---------------------------------------------------------------- syllabus analysis

  datatype Analysis = Analysis(minQuestions: int, recommendedQuestions: int, topics: seq<string>)

  const GeneralKnowledge := "General Knowledge"

  /** `Math.ceil(n * 0.6)`, i.e. the least integer at least 3n/5. The binary
      value of 0.6 lies just below 3/5, and no product of it with a count of
      topics lands above an integer it should equal, so the exact ratio gives
      the same result. */
  function CeilThreeFifths(n: nat): (r: nat)
    ensures 5 * r >= 3 * n
    ensures 5 * (r - 1) < 3 * n
  {
    (3 * n + 4) / 5
  }

  /** `analyzeSyllabus` from the parsed reply's `topics` field. */
  function AnalyzeSyllabus(reply: Result<Option<seq<string>>>): (r: Analysis)
    ensures reply.Err? ==> r == Analysis(5, 10, [])
    ensures reply.Ok? && |reply.value.GetOr([])| == 0 ==> r == Analysis(5, 10, [GeneralKnowledge])
    ensures reply.Ok? && |reply.value.GetOr([])| > 0 ==>
      && r.topics == reply.value.value
      && r.recommendedQuestions == |r.topics|
      && 5 * r.minQuestions >= 3 * |r.topics| && 5 * (r.minQuestions - 1) < 3 * |r.topics|
  {
    match reply
    case Err(_) => Analysis(5, 10, [])
    case Ok(field) =>
      var topics := field.GetOr([]);
      if |topics| == 0 then Analysis(5, 10, [GeneralKnowledge])
      else Analysis(CeilThreeFifths(|topics|), |topics|, topics)
  }

  /** Every analysis asks for at least one question and never for a minimum
      above the recommendation. */
  lemma AnalysisBounds(reply: Result<Option<seq<string>>>)
    ensures 1 <= AnalyzeSyllabus(reply).minQuestions <= AnalyzeSyllabus(reply).recommendedQuestions
  {
  }

  // ---------------------------------------------------------------- exam questions

  /** The topic instruction added to the question prompt. */
  datatype TopicFocus = OnTopic(topic: string) | AtPosition(number: int, outOf: int) | Free

  /** A non-empty specific topic wins; otherwise, when both the index and the
      total are known, the question's position (counted from 1); otherwise nothing. */
  function TopicInstruction(specificTopic: Option<string>, index: Option<int>, total: Option<int>): (r: TopicFocus)
    ensures r.OnTopic? <==> specificTopic.Some? && specificTopic.value != ""
    ensures r.OnTopic? ==> r.topic == specificTopic.value
    ensures r.AtPosition? <==> !r.OnTopic? && index.Some? && total.Some?
    ensures r.AtPosition? ==> r.number == index.value + 1 && r.outOf == total.value
  {
    if specificTopic.Some? && specificTopic.value != "" then OnTopic(specificTopic.value)
    else if index.Some? && total.Some? then AtPosition(index.value + 1, total.value)
    else Free
  }

  const QuestionError := "Error generating question."
  const GeneralTopic := "General"

  function ErrorQuestion(): ExamQuestion {
    ExamQuestion(QuestionError, None, None, None, None)
  }

  /** `generateExamQuestion`. `response` is the reply text, `parsed` the result
      of `JSON.parse(text || "{}")` read as a question (None when it threw);
      it is consulted in test format only. */
  function GenerateExamQuestion(format: ExamFormat, specificTopic: Option<string>,
                                response: Result<Option<string>>, parsed: Option<ExamQuestion>): (r: ExamQuestion)
    ensures response.Err? ==> r == ErrorQuestion()
    ensures response.Ok? && format == Test ==> r == parsed.GetOr(ErrorQuestion())
    ensures response.Ok? && format == Open ==>
      && r.question == response.value.GetOr("")
      && r.contextSnippet == Some("")
      && r.topic == Some(OrElse(specificTopic, GeneralTopic))
      && r.options.None? && r.correctAnswerIndex.None?
  {
    match response
    case Err(_) => ErrorQuestion()
    case Ok(text) =>
      if format == Test then parsed.GetOr(ErrorQuestion())
      else ExamQuestion(text.GetOr(""), Some(""), None, None, Some(OrElse(specificTopic, GeneralTopic)))
  }

  /** An open-format question always carries a non-empty topic: the
      requested one, or "General". */
  lemma OpenQuestionHasTopic(specificTopic: Option<string>, text: Option<string>)
    ensures var q := GenerateExamQuestion(Open, specificTopic, Ok(text), None);
      q.topic.Some? && q.topic.value != ""
      && (specificTopic.Some? && specificTopic.value != "" ==> q.topic.value == specificTopic.value)
  {
  }

  // ---------------------------------------------------------------- grading

  /** The fields of the parsed grading reply, each possibly missing. */
  datatype GradeReply = GradeReply(correct: Option<Json>, score: Option<int>, feedback: Option<string>)

  datatype Grade = Grade(correct: bool, score: int, feedback: string)

  const NoFeedback := "No feedback provided."
  const GradingError := "Error grading answer."

  /** `validateExamAnswer`: `!!correct`, `score || 0` (not clamped) and
      `feedback || "No feedback provided."`, or the fixed failure grade. */
  function ValidateExamAnswer(reply: Result<GradeReply>): (r: Grade)
    ensures reply.Err? ==> r == Grade(false, 0, GradingError)
    ensures reply.Ok? ==> (r.correct <==> Truthy(reply.value.correct))
    ensures reply.Ok? && reply.value.score.Some? ==> r.score == reply.value.score.value
    ensures reply.Ok? && reply.value.score.None? ==> r.score == 0
    ensures reply.Ok? ==> r.feedback != ""
    ensures reply.Ok? && reply.value.feedback.Some? && reply.value.feedback.value != "" ==>
      r.feedback == reply.value.feedback.value
    ensures reply.Ok? && !(reply.value.feedback.Some? && reply.value.feedback.value != "") ==>
      r.feedback == NoFeedback
  {
    match reply
    case Err(_) => Grade(false, 0, GradingError)
    case Ok(g) => Grade(Truthy(g.correct), g.score.GetOr(0), OrElse(g.feedback, NoFeedback))
  }

  /** A grade is marked correct only when the reply's field is truthy: a
      missing field, null, false, 0 and "" all read as incorrect. */
  lemma FalsyMeansIncorrect(score: Option<int>, feedback: Option<string>)
    ensures !ValidateExamAnswer(Ok(GradeReply(None, score, feedback))).correct
    ensures !ValidateExamAnswer(Ok(GradeReply(Some(JNull), score, feedback))).correct
    ensures !ValidateExamAnswer(Ok(GradeReply(Some(JBool(false)), score, feedback))).correct
    ensures !ValidateExamAnswer(Ok(GradeReply(Some(JNum(0.0)), score, feedback))).correct
    ensures !ValidateExamAnswer(Ok(GradeReply(Some(JStr("")), score, feedback))).correct
    ensures ValidateExamAnswer(Ok(GradeReply(Some(JStr("no")), score, feedback))).correct
  {
  }

  // ---------------------------------------------------------------- study content

  datatype ContentKind = Summary | Outline | Mindmap

  /** What the `generateStudyContent` prompt is built from. */
  datatype StudyPrompt = StudyPrompt(syllabus: string, kind: ContentKind, language: string)

  /** The `generateStudyContent` prompt: each of the three kinds embeds the
      first 90000 characters of the syllabus. */
  function StudyPromptFor(material: string, kind: ContentKind, language: string): (r: StudyPrompt)
    ensures r.syllabus <= material
    ensures |r.syllabus| == if |material| <= AnalysisExcerpt then |material| else AnalysisExcerpt
    ensures r.kind == kind && r.language == language
  {
    StudyPrompt(Excerpt(material, AnalysisExcerpt), kind, language)
  }

  const ContentError := "Error generating content."
  const MermaidFence := "```mermaid"
  const Fence := "```"

  /** The mindmap cleanup: every "```mermaid", then every "```", then trim. */
  function CleanMindmap(text: string): string {
    Text.Trim(Text.RemoveAll(Text.RemoveAll(text, MermaidFence), Fence))
  }

  /** `generateStudyContent`: the reply text (or "") is returned as it is for a
      summary or outline; a mindmap is cleaned of code fences. */
  function GenerateStudyContent(kind: ContentKind, response: Result<Option<string>>): (r: string)
    ensures response.Err? ==> r == ContentError
    ensures response.Ok? && kind != Mindmap ==> r == response.value.GetOr("")
    ensures response.Ok? && kind == Mindmap ==> r == CleanMindmap(response.value.GetOr(""))
  {
    match response
    case Err(_) => ContentError
    case Ok(text) => if kind == Mindmap then CleanMindmap(text.GetOr("")) else text.GetOr("")
  }

  /** No code fence survives the mindmap cleanup, and the result neither
      begins nor ends with white space. */
  lemma MindmapClean(text: string)
    ensures Text.NoOccurrence(CleanMindmap(text), Fence)
    ensures var r := CleanMindmap(text); |r| == 0 || (!Text.IsSpace(r[0]) && !Text.IsSpace(r[|r| - 1]))
  {
    var stripped := Text.RemoveAll(Text.RemoveAll(text, MermaidFence), Fence);
    Text.RemoveTripleClean(Text.RemoveAll(text, MermaidFence), '`');
    assert Fence == ['`', '`', '`'];
    Text.TrimSpec(stripped);
    Text.NoOccurrenceSlice(stripped, Fence, Text.LeadingSpaces(stripped),
                           Text.LeadingSpaces(stripped) + |Text.Trim(stripped)|);
  }

  /** A mindmap reply without fences or surrounding white space comes back unchanged. */
  lemma MindmapUnchanged(text: string)
    requires !Text.Includes(text, Fence)
    requires |text| == 0 || (!Text.IsSpace(text[0]) && !Text.IsSpace(text[|text| - 1]))
    ensures CleanMindmap(text) == text
  {
    Text.IncludesLonger(text, Fence, MermaidFence);
    Text.RemoveAllNoMatch(text, MermaidFence);
    Text.RemoveAllNoMatch(text, Fence);
    Text.TrimUnchanged(text);
  }

  // ---------------------------------------------------------------- speech

  newtype byte = x: int | 0 <= x < 256

  /** The signed little-endian 16-bit value of two bytes. */
  function Int16(lo: byte, hi: byte): (v: int)
    ensures -32768 <= v < 32768
  {
    var u := lo as int + 256 * hi as int;
    if u >= 32768 then u - 65536 else u
  }

  /** The bytes' 16-bit values, two bytes each. */
  function Int16s(bytes: seq<byte>): (r: seq<int>)
    requires |bytes| % 2 == 0
    ensures |r| == |bytes| / 2
  {
    seq(|bytes| / 2, i requires 0 <= i < |bytes| / 2 => Int16(bytes[2 * i], bytes[2 * i + 1]))
  }

  /** The two bytes of a 16-bit value, low byte first. */
  function LowByte(k: int): byte
    requires -32768 <= k < 32768
  {
    var u := if k < 0 then k + 65536 else k;
    (u % 256) as byte
  }

  function HighByte(k: int): byte
    requires -32768 <= k < 32768
  {
    var u := if k < 0 then k + 65536 else k;
    (u / 256) as byte
  }

  ghost predicate InInt16(ks: seq<int>) {
    forall i :: 0 <= i < |ks| ==> -32768 <= ks[i] < 32768
  }

  function EncodeInt16s(ks: seq<int>): (r: seq<byte>)
    requires InInt16(ks)
    ensures |r| == 2 * |ks|
  {
    seq(2 * |ks|, j requires 0 <= j < 2 * |ks| =>
      if j % 2 == 0 then LowByte(ks[j / 2]) else HighByte(ks[j / 2]))
  }

  lemma Int16OfBytes(k: int)
    requires -32768 <= k < 32768
    ensures Int16(LowByte(k), HighByte(k)) == k
  {
  }

  lemma BytesOfInt16(lo: byte, hi: byte)
    ensures LowByte(Int16(lo, hi)) == lo && HighByte(Int16(lo, hi)) == hi
  {
  }

  /** Reading 16-bit values and writing them back gives the original bytes. */
  lemma BytesRoundTrip(bytes: seq<byte>)
    requires |bytes| % 2 == 0
    ensures InInt16(Int16s(bytes)) && EncodeInt16s(Int16s(bytes)) == bytes
  {
    var vs := Int16s(bytes);
    var e := EncodeInt16s(vs);
    forall j | 0 <= j < |bytes|
      ensures e[j] == bytes[j]
    {
      var i := j / 2;
      assert j == 2 * i || j == 2 * i + 1;
      BytesOfInt16(bytes[2 * i], bytes[2 * i + 1]);
    }
  }

  /** Writing 16-bit values and reading them back gives the original values:
      with `BytesRoundTrip`, reading is a bijection between even-length byte
      strings and sequences of 16-bit values. */
  lemma ValuesRoundTrip(ks: seq<int>)
    requires InInt16(ks)
    ensures Int16s(EncodeInt16s(ks)) == ks
  {
    var e := EncodeInt16s(ks);
    var back := Int16s(e);
    assert |back| == |ks|;
    forall i | 0 <= i < |ks|
      ensures back[i] == ks[i]
    {
      ValueRoundTrip(ks, e, back, i);
    }
  }

  lemma ValueRoundTrip(ks: seq<int>, e: seq<byte>, back: seq<int>, i: nat)
    requires InInt16(ks) && e == EncodeInt16s(ks) && back == Int16s(e) && i < |ks|
    ensures back[i] == ks[i]
  {
    var j := 2 * i;
    assert j % 2 == 0 && j / 2 == i && (j + 1) % 2 == 1 && (j + 1) / 2 == i;
    assert e[j] == LowByte(ks[i]);
    assert e[j + 1] == HighByte(ks[i]);
    assert back[i] == Int16(e[j], e[j + 1]);
    Int16OfBytes(ks[i]);
  }

  /** `new Int16Array(bytes.buffer)`, `createBuffer(1, length, 24000)` and the
      division by 32768: an odd byte count makes the view constructor throw,
      and no bytes at all ask for a buffer of length 0, which Web Audio
      refuses. */
  function DecodePcm16(bytes: seq<byte>): (r: Result<seq<real>>)
    ensures r.Err? <==> |bytes| % 2 == 1 || |bytes| == 0
    ensures r.Ok? ==> |r.value| == |bytes| / 2 > 0
    ensures r.Ok? ==> forall i :: 0 <= i < |r.value| ==>
      r.value[i] * 32768.0 == Int16(bytes[2 * i], bytes[2 * i + 1]) as real
  {
    if |bytes| % 2 == 1 then Err("RangeError")
    else if |bytes| == 0 then Err("NotSupportedError")
    else
      var ks := Int16s(bytes);
      Ok(seq(|ks|, i requires 0 <= i < |ks| => ks[i] as real / 32768.0))
  }

  /** Every decoded sample lies in [-1, 1). */
  lemma SamplesInRange(bytes: seq<byte>)
    ensures DecodePcm16(bytes).Ok? ==> forall i :: 0 <= i < |DecodePcm16(bytes).value| ==>
      -1.0 <= DecodePcm16(bytes).value[i] < 1.0
  {
    if DecodePcm16(bytes).Err? { return; }
    var r := DecodePcm16(bytes).value;
    forall i | 0 <= i < |r|
      ensures -1.0 <= r[i] < 1.0
    {
      var k := Int16(bytes[2 * i], bytes[2 * i + 1]);
      assert r[i] * 32768.0 == k as real;
    }
  }

  /** What `generateSpeech` resolves to: null, a buffer of samples, or a
      rejection that escapes the function (the decoding promise is returned
      from inside the `try` without being awaited, so its failure is not caught). */
  datatype Speech = NoAudio | Audio(samples: seq<real>) | Rejected

  /** `generateSpeech`. `reply` is the inline audio of the first part, as the
      bytes its base64 text decodes to (None when the text is absent or "";
      a non-empty text that decodes to no bytes, such as white space, is `Some([])`). */
  function GenerateSpeech(text: string, reply: Result<Option<seq<byte>>>): (r: Speech)
    ensures text == "" ==> r == NoAudio
    ensures text != "" && (reply.Err? || reply.value.None?) ==> r == NoAudio
    ensures text != "" && reply.Ok? && reply.value.Some? ==>
      (r.Rejected? <==> |reply.value.value| % 2 == 1 || |reply.value.value| == 0)
    ensures r.Audio? ==> r.samples == DecodePcm16(reply.value.value).value
  {
    if text == "" then NoAudio
    else match reply
      case Err(_) => NoAudio
      case Ok(None) => NoAudio
      case Ok(Some(bytes)) =>
        match DecodePcm16(bytes)
        case Err(_) => Rejected
        case Ok(samples) => Audio(samples)
  }
}
