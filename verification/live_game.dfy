/** The live oral-exam session of components/LiveGame.tsx as a sequential,
    event-driven state machine. Every browser callback (button click,
    microphone grant, socket open/close/error, server message, playback end,
    captured frame, unmount) is one event, handled atomically in delivery
    order. The remote model, the Web Audio graph and the microphone are
    outside the model: a server message arrives already demultiplexed, its
    audio as the duration of the decoded chunk, together with the output
    clock reading `now`. */
module LiveGame {
  import opened Types
  import Text

  /** The single tool the session declares to the remote model. */
  const ScoreToolName := "reportAnswerResult"
  /** The payload of every acknowledgement sent back for a scoring call. */
  const AckResult := "Grade logged."
  const ConnectionLost := "Connection Lost. Please restart."
  const SetupFailed := "Failed to start exam session."
  /** The spoken voice requested when the session opens. */
  const VoiceName := "Puck"
  /** Characters of study material placed in the session instructions. */
  const SyllabusLimit := 100000
  const InputSampleRate := 16000
  const OutputSampleRate := 24000
  /** Samples per captured frame handed to the script processor. */
  const FrameSamples := 4096

  /** The translated status line; only its key matters here. */
  datatype Status = WaitingStart | AccessMic | Preparing | InProgress | Finished

  /** `lastFeedback`: a summary from the model or the translated pass/review label. */
  datatype Feedback = Said(text: string) | PassLabel | ReviewLabel

  datatype FunctionCall = FunctionCall(
    id: string, name: string, isCorrect: Option<Json>, feedbackSummary: Option<string>)

  /** One server message. `audio` is the duration in seconds of the decoded
      chunk when the first model-turn part carries non-empty inline data. */
  datatype ServerMessage = ServerMessage(
    functionCalls: Option<seq<FunctionCall>>, audio: Option<real>, interrupted: bool)

  datatype ToolResponse = ToolResponse(id: string, name: string, result: string)

  /** A buffer source started at `start` for `duration` seconds. */
  datatype Playback = Playback(source: nat, start: real, duration: real)

  /** The spoken-exam score, mutated only by recognised tool calls. */
  datatype Score = Score(score: nat, questionsAsked: nat, lastFeedback: Feedback)

  /** The component's state and refs. `hasStream`, `hasContexts` and
      `hasSession` say whether the stream, audio-context and session refs
      have been assigned; `capturing` whether the script processor is live. */
  datatype Session = Session(
    started: bool,
    connected: bool,
    status: Status,
    error: Option<string>,
    isSpeaking: bool,
    tally: Score,
    nextStartTime: real,
    active: set<nat>,
    nextSource: nat,
    hasStream: bool,
    hasContexts: bool,
    hasSession: bool,
    capturing: bool)

  /** What one event sends to the outside world. */
  datatype Output = Output(
    responses: seq<ToolResponse>,
    scheduled: Option<Playback>,
    stopped: set<nat>,
    framesSent: nat,
    closeSession: bool,
    stopMic: bool,
    closeContexts: bool)

  const Quiet := Output([], None, {}, 0, false, false, false)

  datatype Event =
    | StartClicked
    | MicGranted
    | ContextsReady
    | StartFailed
    | Opened
    | SessionResolved
    | Frame
    | Message(msg: ServerMessage, now: real)
    | SourceEnded(source: nat)
    | Closed
    | TransportError
    | Cleanup

  function Initial(): Session {
    Session(false, false, WaitingStart, None, false, Score(0, 0, Said("")),
            0.0, {}, 0, false, false, false, false)
  }

  ghost predicate Valid(s: Session) {
    && s.tally.score <= s.tally.questionsAsked
    && forall id :: id in s.active ==> id < s.nextSource
  }

  // ---------------------------------------------------------------- session open

  /** The instructions the session is opened with. */
  datatype Instructions = Instructions(
    role: string, syllabus: string, language: string, questions: int, tool: string, voice: string)

  function SessionInstructions(c: GameConfig): (r: Instructions)
    ensures r.syllabus <= c.studyMaterial
    ensures |r.syllabus| == if |c.studyMaterial| < SyllabusLimit then |c.studyMaterial| else SyllabusLimit
    ensures r.role == c.examinerStyle && r.language == c.language && r.questions == c.totalQuestions
    ensures r.tool == ScoreToolName
  {
    Instructions(c.examinerStyle, Text.Prefix(c.studyMaterial, SyllabusLimit), c.language,
                 c.totalQuestions, ScoreToolName, VoiceName)
  }

  // ---------------------------------------------------------------- tool calls

  predicate Recognised(fc: FunctionCall) {
    fc.name == ScoreToolName
  }

  /** `fc.args['isCorrect'] === true`: only the boolean true counts. */
  predicate MarkedCorrect(fc: FunctionCall) {
    fc.isCorrect == Some(JBool(true))
  }

  function CallFeedback(fc: FunctionCall): Feedback {
    if fc.feedbackSummary.Some? && fc.feedbackSummary.value != "" then Said(fc.feedbackSummary.value)
    else if MarkedCorrect(fc) then PassLabel
    else ReviewLabel
  }

  /** The recognised calls among `calls`, in order. */
  function RecognisedCalls(calls: seq<FunctionCall>): seq<FunctionCall>
    decreases |calls|
  {
    if |calls| == 0 then []
    else (if Recognised(calls[0]) then [calls[0]] else []) + RecognisedCalls(calls[1..])
  }

  function CorrectCount(calls: seq<FunctionCall>): nat
    decreases |calls|
  {
    if |calls| == 0 then 0
    else (if Recognised(calls[0]) && MarkedCorrect(calls[0]) then 1 else 0) + CorrectCount(calls[1..])
  }

  lemma {:induction false} CorrectAtMostRecognised(calls: seq<FunctionCall>)
    ensures CorrectCount(calls) <= |RecognisedCalls(calls)|
    decreases |calls|
  {
    if |calls| > 0 {
      CorrectAtMostRecognised(calls[1..]);
    }
  }

  /** One scoring call: one more question, one more point only when marked
      correct, its feedback shown, and exactly one acknowledgement with the
      call's id and name. Other names change nothing and get no response. */
  function ApplyCall(t: Score, fc: FunctionCall): (r: (Score, seq<ToolResponse>))
    ensures Recognised(fc) ==> r.0.questionsAsked == t.questionsAsked + 1
    ensures Recognised(fc) ==> r.0.score == t.score + (if MarkedCorrect(fc) then 1 else 0)
    ensures Recognised(fc) ==> r.0.lastFeedback == CallFeedback(fc)
    ensures Recognised(fc) ==> r.1 == [ToolResponse(fc.id, fc.name, AckResult)]
    ensures !Recognised(fc) ==> r == (t, [])
  {
    if !Recognised(fc) then (t, [])
    else
      var isCorrect := MarkedCorrect(fc);
      (Score(if isCorrect then t.score + 1 else t.score, t.questionsAsked + 1, CallFeedback(fc)),
       [ToolResponse(fc.id, fc.name, AckResult)])
  }

  /** The calls of one message in order: the counters move by the number of
      recognised (and recognised-correct) calls, the responses acknowledge
      exactly the recognised calls in order, and the feedback shown is that
      of the last recognised call. */
  function ApplyCalls(t: Score, calls: seq<FunctionCall>): (Score, seq<ToolResponse>)
    decreases |calls|
  {
    if |calls| == 0 then (t, [])
    else
      var first := ApplyCall(t, calls[0]);
      var rest := ApplyCalls(first.0, calls[1..]);
      (rest.0, first.1 + rest.1)
  }

  /** The calls of one message move the counters by the number of recognised
      (and recognised-correct) calls, and answer each recognised call once. */
  lemma {:induction false} ApplyCallsCounts(t: Score, calls: seq<FunctionCall>)
    ensures ApplyCalls(t, calls).0.questionsAsked == t.questionsAsked + |RecognisedCalls(calls)|
    ensures ApplyCalls(t, calls).0.score == t.score + CorrectCount(calls)
    ensures |ApplyCalls(t, calls).1| == |RecognisedCalls(calls)|
    decreases |calls|
  {
    if |calls| > 0 {
      ApplyCallsCounts(ApplyCall(t, calls[0]).0, calls[1..]);
    }
  }

  /** The responses acknowledge exactly the recognised calls, in order, and
      the feedback shown is that of the last recognised call. */
  lemma {:induction false} ApplyCallsAcks(t: Score, calls: seq<FunctionCall>)
    ensures ApplyCalls(t, calls).1 == AcksFor(RecognisedCalls(calls))
    ensures |RecognisedCalls(calls)| == 0 ==> ApplyCalls(t, calls).0.lastFeedback == t.lastFeedback
    ensures |RecognisedCalls(calls)| > 0 ==>
      ApplyCalls(t, calls).0.lastFeedback == CallFeedback(RecognisedCalls(calls)[|RecognisedCalls(calls)| - 1])
    decreases |calls|
  {
    if |calls| > 0 {
      var first := ApplyCall(t, calls[0]);
      ApplyCallsAcks(first.0, calls[1..]);
      var rc := RecognisedCalls(calls[1..]);
      if Recognised(calls[0]) {
        assert RecognisedCalls(calls) == [calls[0]] + rc;
        AcksForCons(calls[0], rc);
      } else {
        assert RecognisedCalls(calls) == rc;
      }
    }
  }

  /** One acknowledgement per call, with the call's id and name. */
  function AcksFor(calls: seq<FunctionCall>): (r: seq<ToolResponse>)
    ensures |r| == |calls|
    ensures forall i :: 0 <= i < |r| ==> r[i] == ToolResponse(calls[i].id, calls[i].name, AckResult)
  {
    seq(|calls|, i requires 0 <= i < |calls| => ToolResponse(calls[i].id, calls[i].name, AckResult))
  }

  lemma AcksForCons(fc: FunctionCall, rest: seq<FunctionCall>)
    ensures AcksFor([fc] + rest) == [ToolResponse(fc.id, fc.name, AckResult)] + AcksFor(rest)
  {
  }

  /** The `for (const fc of toolCall.functionCalls)` loop, computing the same
      score and acknowledgements as the reference definition. */
  method HandleToolCalls(t: Score, calls: seq<FunctionCall>) returns (u: Score, sent: seq<ToolResponse>)
    ensures u == ApplyCalls(t, calls).0 && sent == ApplyCalls(t, calls).1
  {
    u, sent := t, [];
    var i := 0;
    assert calls[0..] == calls;
    while i < |calls|
      invariant 0 <= i <= |calls|
      invariant ApplyCalls(t, calls).0 == ApplyCalls(u, calls[i..]).0
      invariant ApplyCalls(t, calls).1 == sent + ApplyCalls(u, calls[i..]).1
    {
      var step := ApplyCall(u, calls[i]);
      assert calls[i..][0] == calls[i];
      assert calls[i..][1..] == calls[i + 1..];
      assert ApplyCalls(u, calls[i..]).1 == step.1 + ApplyCalls(step.0, calls[i + 1..]).1;
      u := step.0;
      sent := sent + step.1;
      i := i + 1;
    }
    assert calls[i..] == [];
    assert ApplyCalls(u, calls[i..]) == (u, []);
  }

  // ---------------------------------------------------------------- audio

  function Max(a: real, b: real): real {
    if a >= b then a else b
  }

  /** An audio chunk: speaking is flagged at once; without an output context
      the handler returns early. Otherwise the chunk starts at
      max(nextStartTime, now), the clock advances past its end, and its
      source joins the active set under a fresh id. */
  function ScheduleAudio(s: Session, duration: real, now: real): (r: (Session, Option<Playback>))
    ensures r.0.isSpeaking
    ensures !s.hasContexts ==> r == (s.(isSpeaking := true), None)
    ensures s.hasContexts ==> r.1.Some?
    ensures r.1.Some? ==>
      && r.1.value.start >= s.nextStartTime && r.1.value.start >= now
      && (r.1.value.start == s.nextStartTime || r.1.value.start == now)
      && r.1.value.duration == duration
      && r.0.nextStartTime == r.1.value.start + duration
      && r.0.active == s.active + {r.1.value.source}
    ensures Valid(s) && r.1.Some? ==> r.1.value.source !in s.active
    ensures r.0.tally == s.tally && r.0.status == s.status && r.0.error == s.error
    ensures Valid(s) ==> Valid(r.0)
  {
    if !s.hasContexts then (s.(isSpeaking := true), None)
    else
      var start := Max(s.nextStartTime, now);
      var id := s.nextSource;
      assert Valid(s) ==> id !in s.active;
      var p := Playback(id, start, duration);
      (s.(isSpeaking := true, nextStartTime := start + duration,
          active := s.active + {id}, nextSource := id + 1),
       Some(p))
  }

  /** An interruption stops every active source, empties the set, resets the
      scheduling clock to zero and clears the speaking flag. What the reset
      means for the next chunk is `InterruptThenSchedule`. */
  function Interrupt(s: Session): (r: (Session, set<nat>))
    ensures r.1 == s.active
    ensures r.0 == s.(active := {}, nextStartTime := 0.0, isSpeaking := false)
  {
    (s.(active := {}, nextStartTime := 0.0, isSpeaking := false), s.active)
  }

  /** The audio and interruption part of a server message, after its tool
      calls: the chunk is scheduled unless the missing output context ends
      the handler early, and an interruption then stops everything. */
  function OnAudio(s: Session, m: ServerMessage, now: real): (r: (Session, Option<Playback>, set<nat>))
    ensures m.audio.None? ==> r.1.None?
    ensures m.audio.Some? && s.hasContexts ==> r.1.Some?
    ensures m.audio.Some? && !s.hasContexts ==> r.0 == s.(isSpeaking := true) && r.1.None? && r.2 == {}
    ensures m.interrupted && (m.audio.None? || s.hasContexts) ==>
      && r.0.active == {} && r.0.nextStartTime == 0.0 && !r.0.isSpeaking
      && r.2 == s.active + (if r.1.Some? then {r.1.value.source} else {})
    ensures !m.interrupted ==> r.2 == {}
    ensures !m.interrupted && r.1.None? ==> r.0.nextStartTime == s.nextStartTime
    ensures !m.interrupted && r.1.Some? ==>
      r.1.value.start >= s.nextStartTime && r.0.nextStartTime == r.1.value.start + r.1.value.duration
    ensures !m.interrupted && m.audio.Some? && s.hasContexts ==>
      && r.1.value.start >= now && r.1.value.duration == m.audio.value
      && r.0.active == s.active + {r.1.value.source} && r.0.isSpeaking
    ensures r.0.tally == s.tally && r.0.status == s.status && r.0.error == s.error && r.0.connected == s.connected
    ensures Valid(s) ==> Valid(r.0)
  {
    if m.audio.Some? && !s.hasContexts then (s.(isSpeaking := true), None, {})
    else
      var (s2, scheduled) := if m.audio.Some? then ScheduleAudio(s, m.audio.value, now) else (s, None);
      if m.interrupted then
        var (s3, stopped) := Interrupt(s2);
        (s3, scheduled, stopped)
      else
        (s2, scheduled, {})
  }

  /** The scoring calls a message carries, in order. */
  function Scored(m: ServerMessage): seq<FunctionCall> {
    RecognisedCalls(m.functionCalls.GetOr([]))
  }

  /** A whole server message: tool calls first, then the audio chunk, then the
      interruption flag, unless the missing output context ended the handler early. */
  function OnMessage(s: Session, m: ServerMessage, now: real): (r: (Session, Output))
    ensures r.0.tally.questionsAsked == s.tally.questionsAsked + |Scored(m)|
    ensures r.0.tally.score == s.tally.score + CorrectCount(m.functionCalls.GetOr([]))
    ensures r.1.responses == AcksFor(Scored(m))
    ensures |Scored(m)| == 0 ==> r.0.tally.lastFeedback == s.tally.lastFeedback
    ensures |Scored(m)| > 0 ==> r.0.tally.lastFeedback == CallFeedback(Scored(m)[|Scored(m)| - 1])
    ensures m.audio.None? ==> r.1.scheduled.None?
    ensures m.audio.Some? && s.hasContexts ==> r.1.scheduled.Some?
    ensures m.audio.Some? && !s.hasContexts ==> r.0.isSpeaking && r.1.stopped == {} && r.0.active == s.active
    ensures m.interrupted && (m.audio.None? || s.hasContexts) ==>
      && r.0.active == {} && r.0.nextStartTime == 0.0 && !r.0.isSpeaking
      && r.1.stopped == s.active + (if r.1.scheduled.Some? then {r.1.scheduled.value.source} else {})
    ensures !m.interrupted ==> r.1.stopped == {}
    ensures !m.interrupted && r.1.scheduled.None? ==> r.0.nextStartTime == s.nextStartTime
    ensures !m.interrupted && r.1.scheduled.Some? ==>
      r.1.scheduled.value.start >= s.nextStartTime
      && r.0.nextStartTime == r.1.scheduled.value.start + r.1.scheduled.value.duration
    ensures !m.interrupted && m.audio.Some? && s.hasContexts ==>
      && r.1.scheduled.value.start >= now && r.1.scheduled.value.duration == m.audio.value
      && r.0.active == s.active + {r.1.scheduled.value.source} && r.0.isSpeaking
    ensures r.0.status == s.status && r.0.error == s.error && r.0.connected == s.connected
    ensures Valid(s) ==> Valid(r.0)
  {
    var calls := m.functionCalls.GetOr([]);
    ApplyCallsCounts(s.tally, calls);
    ApplyCallsAcks(s.tally, calls);
    CorrectAtMostRecognised(calls);
    var applied := ApplyCalls(s.tally, calls);
    var s1 := s.(tally := applied.0);
    var heard := OnAudio(s1, m, now);
    (heard.0, Quiet.(responses := applied.1, scheduled := heard.1, stopped := heard.2))
  }

  /** A source finished playing: only that source leaves the set, and speaking
      stops exactly when the set has become empty. */
  function OnSourceEnded(s: Session, id: nat): (r: Session)
    ensures r.active == s.active - {id}
    ensures r.isSpeaking <==> s.isSpeaking && r.active != {}
    ensures r == s.(active := r.active, isSpeaking := r.isSpeaking)
  {
    var rest := s.active - {id};
    s.(active := rest, isSpeaking := if rest == {} then false else s.isSpeaking)
  }

  // ---------------------------------------------------------------- lifecycle

  /** The unmount cleanup: closes the session when its ref is set (a throw is
      swallowed), stops the microphone tracks, closes both audio contexts,
      stops every active source and empties the set. The refs are not
      cleared, so a repeated cleanup repeats the close calls but stops no
      source; `CleanupTwice` states this. */
  function OnCleanup(s: Session): (r: (Session, Output))
    ensures r.1.stopped == s.active
    ensures r.0.active == {} && !r.0.capturing
    ensures r.1.closeSession == s.hasSession && r.1.stopMic == s.hasStream && r.1.closeContexts == s.hasContexts
    ensures r.0 == s.(active := {}, capturing := false)
  {
    (s.(active := {}, capturing := false),
     Quiet.(stopped := s.active, closeSession := s.hasSession, stopMic := s.hasStream,
            closeContexts := s.hasContexts))
  }

  /** `onaudioprocess`: every captured frame is forwarded while the processor
      is live. There is no turn-taking gate: the speaking flag is not consulted. */
  function OnFrame(s: Session): (r: (Session, Output))
    ensures r.0 == s
    ensures r.1.framesSent == if s.capturing then 1 else 0
  {
    (s, Quiet.(framesSent := if s.capturing then 1 else 0))
  }

  /** The part of `OnMessage` that a run accumulates, for a message event:
      the counters, validity and the scheduling clock. */
  function MessageStep(s: Session, e: Event): (r: (Session, Output))
    requires e.Message?
    ensures Valid(s) ==> Valid(r.0)
    ensures r.0.tally.questionsAsked == s.tally.questionsAsked + |MessageCalls(e)|
    ensures r.0.tally.score == s.tally.score + MessageCorrect(e)
    ensures NoInterruption(e) && r.1.scheduled.None? ==> r.0.nextStartTime == s.nextStartTime
    ensures NoInterruption(e) && r.1.scheduled.Some? ==>
      r.1.scheduled.value.start >= s.nextStartTime
      && r.0.nextStartTime == r.1.scheduled.value.start + r.1.scheduled.value.duration
  {
    assert MessageCalls(e) == Scored(e.msg) && MessageCorrect(e) == CorrectCount(e.msg.functionCalls.GetOr([]));
    OnMessage(s, e.msg, e.now)
  }

  function Step(s: Session, e: Event): (r: (Session, Output))
    ensures Valid(s) ==> Valid(r.0)
    ensures r.0.tally.questionsAsked == s.tally.questionsAsked + |MessageCalls(e)|
    ensures r.0.tally.score == s.tally.score + MessageCorrect(e)
    ensures NoInterruption(e) && r.1.scheduled.None? ==> r.0.nextStartTime == s.nextStartTime
    ensures NoInterruption(e) && r.1.scheduled.Some? ==>
      r.1.scheduled.value.start >= s.nextStartTime
      && r.0.nextStartTime == r.1.scheduled.value.start + r.1.scheduled.value.duration
  {
    match e
    case StartClicked =>
      if s.started then (s, Quiet) else (s.(started := true, status := AccessMic), Quiet)
    case MicGranted => (s.(hasStream := true, status := Preparing), Quiet)
    case ContextsReady => (s.(hasContexts := true), Quiet)
    case StartFailed => (s.(error := Some(SetupFailed)), Quiet)
    case Opened => (s.(connected := true, status := InProgress, capturing := true), Quiet)
    case SessionResolved => (s.(hasSession := true), Quiet)
    case Frame => OnFrame(s)
    case Message(_, _) => MessageStep(s, e)
    case SourceEnded(id) => (OnSourceEnded(s, id), Quiet)
    case Closed => (s.(connected := false, status := Finished), Quiet)
    case TransportError => (s.(error := Some(ConnectionLost)), Quiet)
    case Cleanup => OnCleanup(s)
  }

  /** The status line moves waitingStart -> accessMic -> preparing on the way
      to the socket, inProgress on open and finished on close; an error only
      sets the error text. */
  lemma StatusTransitions(s: Session)
    ensures !s.started ==> Step(s, StartClicked).0.status == AccessMic
    ensures Step(s, MicGranted).0.status == Preparing
    ensures Step(s, Opened).0.status == InProgress && Step(s, Opened).0.connected
    ensures Step(s, Closed).0.status == Finished && !Step(s, Closed).0.connected
    ensures Step(s, TransportError).0 == s.(error := Some(ConnectionLost))
    ensures Step(s, StartFailed).0 == s.(error := Some(SetupFailed))
  {
  }

  // ---------------------------------------------------------------- runs

  /** The state after a run of events, and every playback it started. */
  function Run(s: Session, events: seq<Event>): (Session, seq<Playback>)
    decreases |events|
  {
    if |events| == 0 then (s, [])
    else
      var (mid, log) := Run(s, events[..|events| - 1]);
      var (next, out) := Step(mid, events[|events| - 1]);
      (next, log + (if out.scheduled.Some? then [out.scheduled.value] else []))
  }

  function MessageCalls(e: Event): seq<FunctionCall> {
    if e.Message? then Scored(e.msg) else []
  }

  function MessageCorrect(e: Event): nat {
    if e.Message? then CorrectCount(e.msg.functionCalls.GetOr([])) else 0
  }

  /** Recognised scoring calls over a run. */
  function CallsIn(events: seq<Event>): nat
    decreases |events|
  {
    if |events| == 0 then 0 else CallsIn(events[..|events| - 1]) + |MessageCalls(events[|events| - 1])|
  }

  function CorrectIn(events: seq<Event>): nat
    decreases |events|
  {
    if |events| == 0 then 0 else CorrectIn(events[..|events| - 1]) + MessageCorrect(events[|events| - 1])
  }

  /** After any run from the initial state, `questionsAsked` is the number of
      recognised calls received, whatever the correctness mix, `score` the
      number of those marked correct, and `score <= questionsAsked`. */
  lemma {:induction false} RunCountsCalls(events: seq<Event>)
    ensures Run(Initial(), events).0.tally.questionsAsked == CallsIn(events)
    ensures Run(Initial(), events).0.tally.score == CorrectIn(events)
    ensures Valid(Run(Initial(), events).0)
    decreases |events|
  {
    if |events| > 0 {
      RunCountsCalls(events[..|events| - 1]);
    }
  }

  predicate NoInterruption(e: Event) {
    !(e.Message? && e.msg.interrupted)
  }

  /** Gap-free scheduling: in a run without interruptions every chunk starts
      no earlier than the previous chunk's end, and the clock always sits at
      the end of the last chunk started. */
  lemma {:induction false} NoOverlap(s: Session, events: seq<Event>)
    requires forall k :: 0 <= k < |events| ==> NoInterruption(events[k])
    ensures Scheduled(s.nextStartTime, Run(s, events).0.nextStartTime, Run(s, events).1)
    ensures var log := Run(s, events).1;
      && (forall k :: 0 <= k < |log| - 1 ==> log[k + 1].start >= log[k].start + log[k].duration)
      && (|log| > 0 ==> Run(s, events).0.nextStartTime == log[|log| - 1].start + log[|log| - 1].duration)
      && (|log| > 0 ==> log[0].start >= s.nextStartTime)
      && (|log| == 0 ==> Run(s, events).0.nextStartTime == s.nextStartTime)
    decreases |events|
  {
    if |events| > 0 {
      var init := events[..|events| - 1];
      NoOverlap(s, init);
      var mid := Run(s, init).0;
      var log := Run(s, init).1;
      var e := events[|events| - 1];
      assert NoInterruption(e);
      var st := Step(mid, e);
      if st.1.scheduled.Some? {
        assert Run(s, events) == (st.0, log + [st.1.scheduled.value]);
        ExtendSchedule(s.nextStartTime, mid.nextStartTime, log, st.1.scheduled.value, st.0.nextStartTime);
      } else {
        assert Run(s, events) == (st.0, log + []);
        assert log + [] == log;
      }
    }
  }

  /** Chunks back to back: each starts no earlier than the previous one's
      end, the first no earlier than `t0`, and the clock `t` sits at the end
      of the last one, or at `t0` when none was started. */
  ghost predicate Scheduled(t0: real, t: real, log: seq<Playback>) {
    && (forall k :: 0 <= k < |log| - 1 ==> log[k + 1].start >= log[k].start + log[k].duration)
    && (|log| > 0 ==> t == log[|log| - 1].start + log[|log| - 1].duration && log[0].start >= t0)
    && (|log| == 0 ==> t == t0)
  }

  lemma ExtendSchedule(t0: real, t: real, log: seq<Playback>, p: Playback, t': real)
    requires Scheduled(t0, t, log) && p.start >= t && t' == p.start + p.duration
    ensures Scheduled(t0, t', log + [p])
  {
    var log' := log + [p];
    assert forall k :: 0 <= k < |log| ==> log'[k] == log[k];
    assert log'[|log|] == p;
    if |log| > 0 {
      assert log'[0] == log[0];
    }
  }

  /** A message carrying only an audio chunk of duration `d`, received at time 0. */
  function Chunk(d: real): Event {
    Message(ServerMessage(None, Some(d), false), 0.0)
  }

  /** Chunks of 1.0, 0.5 and 2.0 seconds arriving at time 0 start at 0, 1.0
      and 1.5 and leave the clock at 3.5. */
  lemma ThreeChunks(s: Session)
    requires s.hasContexts && s.nextStartTime == 0.0
    ensures var (t, log) := Run(s, [Chunk(1.0), Chunk(0.5), Chunk(2.0)]);
      && |log| == 3 && log[0].start == 0.0 && log[1].start == 1.0 && log[2].start == 1.5
      && t.nextStartTime == 3.5
  {
    var e1, e2, e3 := Chunk(1.0), Chunk(0.5), Chunk(2.0);
    var events := [e1, e2, e3];
    assert events[..2] == [e1, e2];
    assert [e1, e2][..1] == [e1];
    assert [e1][..0] == [];
    assert Run(s, []) == (s, []);
    assert Step(s, e1).1.scheduled == Some(Playback(s.nextSource, 0.0, 1.0));
    var r1 := Run(s, [e1]);
    assert r1.0.nextStartTime == 1.0 && r1.0.hasContexts && r1.1 == [Playback(s.nextSource, 0.0, 1.0)];
    var r2 := Run(s, [e1, e2]);
    assert r2.0.nextStartTime == 1.5 && r2.0.hasContexts && |r2.1| == 2 && r2.1[1].start == 1.0;
  }

  /** After an interruption the next chunk is no longer queued behind the
      stopped ones: with a non-negative clock it starts at once. */
  lemma InterruptThenSchedule(s: Session, duration: real, now: real)
    requires s.hasContexts && now >= 0.0
    ensures ScheduleAudio(Interrupt(s).0, duration, now).1 == Some(Playback(s.nextSource, now, duration))
    ensures ScheduleAudio(Interrupt(s).0, duration, now).0.active == {s.nextSource}
  {
  }

  /** A second cleanup right after the first stops nothing. */
  lemma CleanupTwice(s: Session)
    ensures OnCleanup(OnCleanup(s).0).1.stopped == {}
    ensures OnCleanup(OnCleanup(s).0).0 == OnCleanup(s).0
  {
  }

  /** Forwarding a frame does not depend on whether the model is speaking. */
  lemma FrameIgnoresSpeaking(s: Session)
    ensures OnFrame(s.(isSpeaking := true)).1 == OnFrame(s.(isSpeaking := false)).1
  {
  }
}
