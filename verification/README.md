# StudyAi core, modelled in Dafny

StudyAi is a browser study assistant. A learner pastes study material, has it
analysed into topics, and is then examined on it in one of several modes:
- a spoken live exam driven by a realtime model that scores answers through a tool call;
- a written quiz, either multiple choice or open answers graded by the model;
- flashcards;
- generated study content, such as mind maps and a podcast.

Accounts, profiles and per-topic statistics live in the browser's local
storage.

This project models that core as pure functions over immutable records:
- the local-storage account service (`services/auth.ts`);
- the post-processing that `services/genai.ts` applies to model replies;
- the state machines and derived values of the React components: App, Auth, Setup, QuizGame, LiveGame, FlashcardGame, Leaderboard, GradeDisplay, MarkdownRenderer and PodcastPlayer.

Every model reply, clock reading and user gesture is a parameter. JavaScript
semantics are written out wherever they matter:
- truthiness;
- `||` defaults;
- `substring`, `slice`, `split`, `indexOf`, `padStart` and `trim`;
- `Math.round` and `Math.floor`;
- the truncating `%`;
- the stable `Array.prototype.sort`;
- the little-endian `Int16Array` view.

Floating-point values are exact rationals (`real`).

Modules, one per file:
- `Types`: shared records, `Option`/`Result`, and JSON truthiness.
- `Text`: string primitives, each with a contract saying what it computes.
- `Rounding`: `Math.round` of a quotient.
- `StableSort`: a stable insertion sort, proved to be a sorted permutation that keeps ties in order.
- `AuthStore`, `AuthForm`, `GenAI`, `Setup`, `QuizGame`, `LiveGame`, `Flashcards`, `Leaderboard`, `GradeDisplay`, `Markdown`, `PodcastPlayer` and `App`: one module per source file, as the table below shows.

The local-storage state is one record with three parts:
- the users array under `studyAi_usersDB`;
- the current user under `studyAi_currentUser`;
- the profiles under `studyAi_profile_<id>`.

`AuthStore.KeysDistinct` shows that these keys never collide. That is why one record with three independent fields is a faithful picture.

Two facts about the live exam's code that the model keeps:
- The live exam has no turn-taking gate on the microphone. Frames are sent whenever capture is on, even while the examiner is speaking (`LiveGame.FrameIgnoresSpeaking`).
- Cleanup has no idempotence guard. It closes the session, the stream and the contexts each time it runs. Only the audio sources are cleared (`LiveGame.CleanupTwice`).

## Model

| member | source | states |
|---|---|---|
| AuthStore.KeysDistinct | services/auth.ts:5-13 | the users key, the current-user key and every profile key are pairwise distinct, and profile keys are injective in the user id |
| AuthStore.FindByEmail | services/auth.ts:34 | the first user with the e-mail, or none exactly when no user has it |
| AuthStore.SaveUserToDB | services/auth.ts:17-23 | a user whose id is already stored leaves the store unchanged; otherwise the user is appended; the current user and profiles are untouched |
| AuthStore.SaveKeepsIdsUnique | services/auth.ts:17-23 | saving keeps the stored ids pairwise distinct |
| AuthStore.Register | services/auth.ts:31-46 | registration fails with "User already exists" exactly when the e-mail is taken; otherwise the new user has id `user_<now>`, the given name and e-mail and the default avatar, is appended unless a stored user already has that id (two registrations in the same millisecond), and becomes the current user either way |
| AuthStore.Login | services/auth.ts:48-55 | login fails with "Invalid credentials" exactly when no stored user has the e-mail; otherwise the first such user becomes current and nothing else changes |
| AuthStore.RegisterThenLogin | services/auth.ts:31-55 | after registering a fresh e-mail with a fresh generated id, logging in with it yields the registered user and the same store |
| AuthStore.FindAfterMisses | services/auth.ts:34 | users without the e-mail in front of a list do not change which user the lookup finds |
| AuthStore.Logout | services/auth.ts:111-114 | logout clears only the current user |
| AuthStore.DefaultProfile | services/auth.ts:120-126 | the profile of a user with nothing saved: empty syllabus, English, zero score, empty statistics, no other fields |
| AuthStore.GetUserProfile | services/auth.ts:117-127 | the saved profile when there is one, else the default profile for that id |
| AuthStore.SaveUserProfile | services/auth.ts:129-131 | the profile is stored under its own user id and nothing else changes |
| AuthStore.SaveThenGet | services/auth.ts:117-131 | reading a profile back after saving it returns it, and other users' profiles read as before |
| AuthStore.NormalizeTopic | services/auth.ts:136 | topics of at most 20 characters are kept; longer ones become their first 20 characters and "..." |
| AuthStore.NormalizeIdempotent | services/auth.ts:136 | normalising twice is normalising once, and exactly the short topics and the 23-character ones ending in "..." are fixed points |
| AuthStore.Lookup | services/auth.ts:137 | a topic has no statistic exactly when no entry carries it |
| AuthStore.BumpLookup | services/auth.ts:137-141 | `Bump`: after an answer, the topic's total grows by one and its correct count by one exactly when the answer was right; every other topic reads as before |
| AuthStore.BumpTopics | services/auth.ts:137-141 | a known topic keeps the key order; a new topic is added last |
| AuthStore.BumpSound | services/auth.ts:137-141 | statistics with `0 <= correct <= total` stay so, and the bumped topic has a total of at least one |
| AuthStore.BumpUnique | services/auth.ts:137-141 | topics stay distinct keys |
| AuthStore.UpdateUserStats | services/auth.ts:133-143 | users and the current user are untouched, and every other user's profile is unchanged |
| AuthStore.UpdateThenGet | services/auth.ts:133-143 | the profile read back differs from the one before only in its statistics, where the normalised topic was bumped and every other topic is unchanged |
| AuthStore.ClearUserStudyData | services/auth.ts:145-151 | clearing touches neither the users nor the current user, keeps profiles keyed by their id, and leaves every other user's profile as it was |
| AuthStore.ClearThenGet | services/auth.ts:145-151 | the profile read back has an empty syllabus, empty statistics and a zero score, and is otherwise the profile from before |
| AuthForm.HandleSubmit | components/Auth.tsx:22-41 | a missing field fails with the fields-required message; a failure clears loading and shows an error without changing the store; a success clears the error and leaves loading on |
| AuthForm.SubmitDelegates | components/Auth.tsx:28-40 | with every field filled in, registration fails exactly when the e-mail is taken, and login succeeds exactly when some user has the e-mail, yielding a user with that e-mail |
| AuthForm.PasswordIgnored | components/Auth.tsx:29-34 | any non-empty password gives the same store and the same logged-in user |
| AuthForm.HandleGoogle | components/Auth.tsx:43-66 | the placeholder client id blocks sign-in and changes nothing; a sign-in passes the user on; a closed popup and an error give their two different messages and clear loading |
| GenAI.Excerpt | services/genai.ts:87 | `substring(0, n)` is the prefix of length `min(n, length)` |
| GenAI.ExcerptsNested | services/genai.ts:87-322 | the 50 000-character grading excerpt is a prefix of the 90 000-character analysis excerpt, which is a prefix of the 100 000-character question excerpt, and material of at most 50 000 characters is embedded whole in all three |
| GenAI.AnalysisPrompt | services/genai.ts:87 | the topic analysis embeds the first 90 000 characters of the material |
| GenAI.QuestionPromptFor | services/genai.ts:137-150 | a question request embeds the first 100 000 characters of the material, passes on the difficulty, language and format, and carries the topic instruction of its topic, index and total |
| GenAI.GradingPromptFor | services/genai.ts:220-226 | a grading request embeds the first 50 000 characters of the material, the question, the answer and the language, and mentions an image exactly when one is attached |
| GenAI.StudyPromptFor | services/genai.ts:317-323 | a summary, outline or mind map request embeds the first 90 000 characters of the material and passes on its kind and language |
| GenAI.CeilThreeFifths | services/genai.ts:116 | the ceiling of three fifths of the topic count |
| GenAI.AnalyzeSyllabus | services/genai.ts:109-123 | a failed call gives 5 and 10 with no topics; zero topics give 5 and 10 with "General Knowledge"; otherwise the topics are kept, the recommended count is their number and the minimum is the ceiling of three fifths of it |
| GenAI.AnalysisBounds | services/genai.ts:109-123 | the minimum is at least one and at most the recommended count |
| GenAI.TopicInstruction | services/genai.ts:137-142 | a non-empty topic wins; otherwise the position "index+1 of total" is given when both are known; otherwise there is no focus |
| GenAI.GenerateExamQuestion | services/genai.ts:178-193 | a failed call gives the error question; a test question is the parsed reply or the error question; an open question is the reply text with an empty snippet and the given topic or "General" |
| GenAI.OpenQuestionHasTopic | services/genai.ts:180-187 | an open question always carries a non-empty topic, which is the requested one when that is non-empty |
| GenAI.ValidateExamAnswer | services/genai.ts:251-260 | a failed call gives incorrect, 0 and the grading-error text; otherwise `correct` is the truthiness of the reply's field, the score defaults to 0, and the feedback is the reply's when non-empty, otherwise "No feedback provided." |
| GenAI.FalsyMeansIncorrect | services/genai.ts:253 | a missing field, null, false, 0 and "" mean incorrect, while the string "no" means correct |
| GenAI.GenerateStudyContent | services/genai.ts:331-338 | a failed call gives the error text; a mind map is cleaned of its fences and trimmed; other kinds return the reply text or "" |
| GenAI.MindmapClean | services/genai.ts:333 | `CleanMindmap`: the cleaned mind map contains no "```" and starts and ends with no white space |
| GenAI.MindmapUnchanged | services/genai.ts:333 | a text without fences or surrounding white space comes out unchanged |
| GenAI.Int16s | services/genai.ts:300 | an even byte count reads as half as many 16-bit samples |
| GenAI.EncodeInt16s | services/genai.ts:300 | a little-endian 16-bit encoding writes two bytes per value |
| GenAI.BytesRoundTrip | services/genai.ts:300 | encoding the decoded samples gives back the bytes |
| GenAI.ValuesRoundTrip | services/genai.ts:300 | decoding the encoded values gives back values in the 16-bit range |
| GenAI.DecodePcm16 | services/genai.ts:292-307 | an odd byte count and an empty one are rejected; otherwise there is at least one sample, and sample i is the little-endian signed value of bytes 2i and 2i+1 divided by 32768 |
| GenAI.SamplesInRange | services/genai.ts:303-305 | every decoded sample lies in [-1, 1) |
| GenAI.GenerateSpeech | services/genai.ts:263-289 | empty text, a failed call and a reply without audio give no audio; an odd or zero byte count is rejected; otherwise the audio is the decoded samples |
| Setup.StylePrompt | components/Setup.tsx:16-20 | the three examiner ids map to their prompts, and any other id maps to the strict one |
| Setup.RestoredLanguage | components/Setup.tsx:70-73 | a saved language is restored when it is non-empty and supported; otherwise the system language is kept |
| Setup.RestoredLanguageSupported | components/Setup.tsx:70-73 | the restored language is supported or is the system language |
| Setup.OnProfileLoaded | components/Setup.tsx:65-78 | a non-empty saved syllabus replaces the material, the language is restored, saved statistics replace the shown ones, and nothing else changes |
| Setup.Autosave | components/Setup.tsx:81-86 | material of at most 10 characters saves nothing, and saving never touches users or the current user |
| Setup.AutosaveThenLoad | components/Setup.tsx:65-86 | after an autosave the profile holds the material and the language, and loading it restores both |
| Setup.QuestionCountInput | components/Setup.tsx:265 | `parseInt(v) \|\| 1` is never 0: a non-zero number is kept, and NaN and 0 become 1 |
| Setup.AnalysisRequest | components/Setup.tsx:129-133 | no analysis is requested for material under 50 characters; otherwise the request embeds the material's first 90 000 characters |
| Setup.HandleAnalyze | components/Setup.tsx:129-140 | material under 50 characters changes nothing; otherwise the form takes the analysis's counts and plan, the count starts at the recommendation, the minimum does not exceed it, and no other field changes |
| Setup.HandleClearData | components/Setup.tsx:142-152 | a declined confirmation changes nothing; otherwise the store's study data is cleared and the form returns to an empty, unanalysed state with counts 5 and 3, and no other field changes |
| Setup.ClearThenReload | components/Setup.tsx:65-86 | after clearing, the empty material is not autosaved and reloading the profile shows neither material nor statistics |
| Setup.HandleStart | components/Setup.tsx:88-107 | starting needs 50 characters of material except for the maths tutor; the configuration carries the form's fields, the chosen style prompt and the plan cut to the question count |
| Setup.StartPlanIsPrefix | components/Setup.tsx:95 | the plan handed over is a prefix of the analysed plan, as long as the question count when that fits |
| Setup.ToRow | components/Setup.tsx:168-172 | a row is marked weak exactly when its rounded percentage is below 60 |
| Setup.AnalyticsSpec | components/Setup.tsx:154-172 | `Analytics`: at most five rows, taken from a stable sort of the topics by ascending success rate, with non-decreasing percentages |
| Setup.RoundDivOrdered | components/Setup.tsx:171 | rounding keeps the order of two fractions |
| Setup.WeakIff | components/Setup.tsx:171-172 | a topic is weak exactly when 200 times its correct count is below 119 times its total |
| Setup.PercentInRange | components/Setup.tsx:171 | the percentage of a sound statistic lies between 0 and 100 |
| QuizGame.PlannedTopic | components/QuizGame.tsx:71 | the plan's topic at the question count, or none when there is no plan or it is shorter |
| QuizGame.ChosenTopic | components/QuizGame.tsx:83-85 | a non-empty planned topic wins, then a non-empty generated topic, then "General"; the result is never empty |
| QuizGame.LoadQuestion | components/QuizGame.tsx:59-100 | once the count reaches the total the quiz finishes without a request; otherwise the request carries the count, the total and the planned topic, and the fresh question is shown with the answer reset |
| QuizGame.LoadedTopicPresent | components/QuizGame.tsx:83-85 | every loaded question carries a non-empty topic |
| QuizGame.LoadQuestionPrompt | components/QuizGame.tsx:71-81 | the question request embeds the first 100 000 characters of the material with the configured format, language and difficulty, and focuses on the planned topic when it is non-empty and on the position "count+1 of total" otherwise |
| QuizGame.GradeChoice | components/QuizGame.tsx:116-125 | correct exactly when the answer's first position equals the correct index; 100 or 0 points; the feedback names the correct option, or `undefined` when the index is out of range |
| QuizGame.ChoiceCorrectIff | components/QuizGame.tsx:117-118 | with an index in range, the answer is correct exactly when it is the option at the index and appears nowhere before it |
| QuizGame.ChoiceOutOfRange | components/QuizGame.tsx:117-118 | with an index out of range, an offered option is never correct, and the answer counts as correct exactly when the index is -1 and the answer is not an option |
| QuizGame.GradingPromptOf | components/QuizGame.tsx:126-128 | a written answer is graded against the current question and the answer being checked, with the first 50 000 characters of the material, the configured language, and an image note exactly when an image is attached |
| QuizGame.HandleSubmit | components/QuizGame.tsx:106-142 | a blank answer without an image changes nothing; otherwise a test with options is graded locally and anything else takes the model's grade, the count grows by one and the score by the grade's points |
| QuizGame.SubmitUpdatesStats | components/QuizGame.tsx:136-139 | statistics are recorded exactly when an answer was accepted, a user is logged in and the question has a topic, and then under that topic with the grade's verdict |
| QuizGame.FinalFigure | components/QuizGame.tsx:171 | the final figure is undefined exactly when the total is 0; otherwise it is the integer within half a unit of the total score divided by the total, negative totals included |
| QuizGame.SubmitKeepsBound | components/QuizGame.tsx:131-133 | with grades of 0 to 100 points the score stays between 0 and 100 times the count |
| QuizGame.AverageIsPercentage | components/QuizGame.tsx:197 | `RunningAverage`: the running average lies between 0 and 100 |
| QuizGame.FinalIsAverageWhenComplete | components/QuizGame.tsx:171 | once every question was answered the final figure is the running average |
| LiveGame.SessionInstructions | components/LiveGame.tsx:100-129 | the instructions carry the style, language and question count, the first 100000 characters of the material, and the score tool |
| LiveGame.CorrectAtMostRecognised | components/LiveGame.tsx:153-161 | no more answers are scored correct than score calls were made |
| LiveGame.ApplyCall | components/LiveGame.tsx:154-171 | a `reportAnswerResult` call counts a question, adds a point exactly when `isCorrect` is `true`, sets the feedback and sends one acknowledgement; any other call changes nothing |
| LiveGame.ApplyCallsCounts | components/LiveGame.tsx:153-173 | a batch counts one question per score call and one point per correct one, with one acknowledgement each |
| LiveGame.ApplyCallsAcks | components/LiveGame.tsx:153-173 | the acknowledgements follow the score calls in order, and the feedback is the last score call's |
| LiveGame.AcksFor | components/LiveGame.tsx:163-171 | one acknowledgement per call, carrying its id and name |
| LiveGame.HandleToolCalls | components/LiveGame.tsx:153-173 | the loop computes the batch's tally and acknowledgements |
| LiveGame.ScheduleAudio | components/LiveGame.tsx:176-197 | without contexts only the speaking flag is set; otherwise a chunk starts at the later of the cursor and now, the cursor moves past it, and its source gets a fresh id |
| LiveGame.Interrupt | components/LiveGame.tsx:199-204 | an interruption stops every active source, resets the cursor and clears the speaking flag |
| LiveGame.InterruptThenSchedule | components/LiveGame.tsx:182-204 | after an interruption the next chunk starts at the current time and is the only active source |
| LiveGame.OnAudio | components/LiveGame.tsx:176-204 | a chunk is scheduled when there are contexts; without contexts the handler returns early and skips the interruption; an interruption stops every source including the new one; otherwise the new chunk starts no earlier than now, joins the active sources and sets the speaking flag |
| LiveGame.OnMessage | components/LiveGame.tsx:150-205 | a message's scoring calls move the counters, are acknowledged with their ids and names in order, and leave the last call's feedback shown (or the old feedback when there are none); its audio and interruption behave as in the audio handler, so an uninterrupted chunk starts no earlier than now and joins the active sources; status and connection are untouched |
| LiveGame.MessageStep | components/LiveGame.tsx:150-205 | a message event moves the counters by its scoring and correct calls, keeps the session valid, and without an interruption leaves the clock at the end of the chunk it schedules |
| LiveGame.OnSourceEnded | components/LiveGame.tsx:193-196 | an ended source leaves the active set, and speaking stops exactly when none is left |
| LiveGame.OnCleanup | components/LiveGame.tsx:59-66 | cleanup stops every active source, stops capture and closes whatever is open; a second run closes the same resources again (LiveGame.CleanupTwice) |
| LiveGame.OnFrame | components/LiveGame.tsx:139-145 | a microphone frame is sent exactly when capture is on |
| LiveGame.Step | components/LiveGame.tsx:68-220 | every event keeps the score at most the questions asked and source ids fresh, and counts the event's score calls |
| LiveGame.StatusTransitions | components/LiveGame.tsx:68-220 | starting asks for the microphone, access prepares, opening is in progress and connected, closing finishes, and errors set their message |
| LiveGame.RunCountsCalls | components/LiveGame.tsx:153-161 | over any run from the initial session, the questions asked and the score are the numbers of score calls and correct ones |
| LiveGame.NoOverlap | components/LiveGame.tsx:182-191 | without interruptions the scheduled chunks never overlap, none starts before the initial cursor, and the cursor ends where the last one ends |
| LiveGame.ThreeChunks | components/LiveGame.tsx:182-191 | chunks of 1, 0.5 and 2 seconds start at 0, 1 and 1.5 and leave the cursor at 3.5 |
| LiveGame.CleanupTwice | components/LiveGame.tsx:59-66 | a second cleanup stops nothing more and changes nothing more |
| LiveGame.FrameIgnoresSpeaking | components/LiveGame.tsx:139-145 | what a frame sends does not depend on whether the examiner is speaking |
| Flashcards.UnlearnedExact | components/FlashcardGame.tsx:33-38 | `Unlearned`: the filter keeps exactly the cards whose front is not learned |
| Flashcards.UnlearnedShorter | components/FlashcardGame.tsx:33-38 | the filter never lengthens the deck and keeps it whole when nothing is learned |
| Flashcards.UnlearnedKeepsOrder | components/FlashcardGame.tsx:33-38 | kept cards keep their relative order |
| Flashcards.StartLoading | components/FlashcardGame.tsx:28 | loading starts without touching the deck |
| Flashcards.LoadCards | components/FlashcardGame.tsx:27-45 | with a user the learned cards are removed, without one the deck is kept whole; the deck restarts at the first card, face up |
| Flashcards.Flip | components/FlashcardGame.tsx:130 | a click turns the card over and changes nothing else |
| Flashcards.HandleNext | components/FlashcardGame.tsx:55-72 | a known card's front joins the user's learned set, the card is turned face up, and the index advances or the deck finishes at the last card |
| Flashcards.NextKeepsValid | components/FlashcardGame.tsx:65-71 | stepping keeps the index on a card |
| Flashcards.NextLearnedFrame | components/FlashcardGame.tsx:57-62 | only the stepping user's learned set changes, and it only grows |
| Flashcards.KnownCardDropped | components/FlashcardGame.tsx:33-62 | a card marked known is left out of the next load, together with every card sharing its front |
| Flashcards.HandleResetDeck | components/FlashcardGame.tsx:47-53 | with a user the learned set is emptied and the deck reloaded; without one nothing happens |
| Flashcards.ResetShowsAll | components/FlashcardGame.tsx:47-53 | after a reset the deck is the whole generated deck |
| Flashcards.View | components/FlashcardGame.tsx:74-119 | the spinner shows exactly while loading; then an empty deck shows "all mastered", a finished deck the end screen, and otherwise the current card |
| Flashcards.CardShown | components/FlashcardGame.tsx:119 | on a valid deck the card screen shows the card at the index |
| Leaderboard.Mock | components/Leaderboard.tsx:10-18 | seven fixed entries |
| Leaderboard.Merge | components/Leaderboard.tsx:28-37 | the fixed entries come first, and the player's entry follows exactly when the session score is defined and positive |
| Leaderboard.AssignRanks | components/Leaderboard.tsx:41 | every entry's rank becomes its position plus one |
| Leaderboard.RankedSpec | components/Leaderboard.tsx:40-41 | `Ranked`: the ranked board is a permutation of the entries with non-increasing scores and ranks 1 to n by position |
| Leaderboard.TiesKeepOrder | components/Leaderboard.tsx:40 | of two entries with the same score the earlier one is ranked first |
| Leaderboard.YouBelowEqualMock | components/Leaderboard.tsx:35-40 | the player is ranked below a fixed entry with an equal score |
| Leaderboard.RankedIds | components/Leaderboard.tsx:40-41 | ranking neither adds nor loses an id |
| Leaderboard.YouPresentIff | components/Leaderboard.tsx:28-41 | `Board`: the player is on the board exactly when the session score is defined and positive, and the board then has eight entries instead of seven |
| Leaderboard.Display | components/Leaderboard.tsx:46-48 | the global tab shows every entry |
| Leaderboard.FriendsExact | components/Leaderboard.tsx:46-48 | `FriendsOf`: the friends tab keeps exactly the friends |
| Leaderboard.FriendsKeepOrder | components/Leaderboard.tsx:46-48 | the friends tab keeps the board's order |
| Leaderboard.FriendRanked | components/Leaderboard.tsx:40-48 | every friend shows on the friends tab after ranking |
| Leaderboard.YouAmongFriends | components/Leaderboard.tsx:35-48 | with a session score the player shows on the friends tab |
| GradeDisplay.GradeTenths | components/GradeDisplay.tsx:24-27 | the grade in tenths is the score over the total times 100, rounded half up |
| GradeDisplay.Update | components/GradeDisplay.tsx:20-51 | without questions nothing changes; otherwise the rounded grade and its band are shown |
| GradeDisplay.BandRanges | components/GradeDisplay.tsx:30-50 | the bands are the grade ranges below 5, below 6, below 7, below 9, and 9 or more |
| GradeDisplay.BandMonotone | components/GradeDisplay.tsx:30-50 | a higher grade never falls in a lower band |
| GradeDisplay.GradeInRange | components/GradeDisplay.tsx:24-27 | a score between 0 and the total gives a grade between 0 and 10 |
| GradeDisplay.ScoreMonotone | components/GradeDisplay.tsx:24-50 | more correct answers never give a lower grade or band |
| GradeDisplay.Extremes | components/GradeDisplay.tsx:24-50 | every answer right gives 10 and the top band, and none right gives 0 and a fail |
| Markdown.CloseAt | components/MarkdownRenderer.tsx:13 | the lazy tail ends at the first "**" reached without crossing a line terminator; none is found exactly when no "**" can be reached before a line terminator or the end |
| Markdown.MatchAt | components/MarkdownRenderer.tsx:13 | a match is at least four characters long |
| Markdown.SplitFrom | components/MarkdownRenderer.tsx:13 | a capturing split gives an odd number of parts |
| Markdown.SplitFromConcat | components/MarkdownRenderer.tsx:13 | the parts concatenate back to the text |
| Markdown.SplitFromMatches | components/MarkdownRenderer.tsx:13 | every odd-numbered part is "**", then text without line terminators, then "**" |
| Markdown.SplitFromPositions | components/MarkdownRenderer.tsx:13 | each odd-numbered part lies where a match starts and is exactly that match, and no position inside an even-numbered part starts a match |
| Markdown.SplitFromNoStars | components/MarkdownRenderer.tsx:13 | a text without "**" is not split |
| Markdown.Inner | components/MarkdownRenderer.tsx:17 | `slice(2, -2)` drops two characters at each end, or gives "" for a part under four characters |
| Markdown.Style | components/MarkdownRenderer.tsx:15-21 | a part is bold exactly when it starts and ends with "**", and then shows without them |
| Markdown.ParseInlineSpec | components/MarkdownRenderer.tsx:12-24 | `ParseInline`: inline parsing keeps every character, shows every match bold without its stars, leaves no match inside a plain run, and leaves a text without "**" as one plain run |
| Markdown.ClassifySpec | components/MarkdownRenderer.tsx:30-76 | `Classify`: after trimming, a blank line is a spacer, "### ", "## " and "# " give headers without the prefix, "- " and "* " give list items, and anything else is a paragraph |
| Markdown.HashWithoutSpace | components/MarkdownRenderer.tsx:38-76 | a '#' without a following space is a paragraph |
| Markdown.RenderLinesSpec | components/MarkdownRenderer.tsx:26-79 | `RenderLines`: one block per line, one more than the number of newlines, each the classification of its line |
| PodcastPlayer.ClockFields | components/PodcastPlayer.tsx:149-150 | minutes are non-negative, seconds are between 0 and 59, and together they are the whole seconds of the time |
| PodcastPlayer.FieldDigits | components/PodcastPlayer.tsx:151 | a padded field has at least two digits, exactly two below 100, and reads back as its number |
| PodcastPlayer.ParseClock | components/PodcastPlayer.tsx:147-152 | reading "m:ss" back gives a non-negative number of seconds |
| PodcastPlayer.FormatRoundTrip | components/PodcastPlayer.tsx:147-152 | `FormatTime`: the shown time has at least five characters and one colon, and reads back as the whole seconds of the time |
| PodcastPlayer.NaNIsBlank | components/PodcastPlayer.tsx:148 | an unknown time shows as "00:00" |
| PodcastPlayer.LongPosition | components/PodcastPlayer.tsx:149-151 | minutes are not wrapped at an hour: 7500 seconds show as "125:00" |
| PodcastPlayer.HandleEnded | components/PodcastPlayer.tsx:127-130 | the end of playback stops it, rewinds to 0, shows "00:00" and keeps the duration and speed |
| App.HandleLogin | App.tsx:39-54 | logging in sets the user and restores the saved theme when it is a known theme and the saved language when it is non-empty |
| App.Mount | App.tsx:30-37 | the session is read with `GetCurrentUser`; a stored session is resumed through the login handler, so the saved theme is applied when known and the saved language when non-empty; without one nothing changes |
| App.FirstLoginIsEnglish | App.tsx:39-54 | a user without a saved profile switches the language to English and keeps the theme |
| App.HandleLogout | App.tsx:56-62 | logout clears the user, the mode and the configuration, and keeps the theme, the language and the stored data |
| App.HandleStart | App.tsx:64-70 | starting records the configuration and the mode, and resets the last score only for the leaderboard |
| App.HandleGameExit | App.tsx:72-76 | leaving a game returns to setup with the game's score and no configuration; the score is dropped before the leaderboard opens (App.LeaderboardNeverShowsScore) |
| App.HandleCloseLeaderboard | App.tsx:78-81 | closing the leaderboard returns to setup with the score reset, and nothing else changes |
| App.HandleReset | App.tsx:83-87 | a reset returns to setup with no score and no configuration, and nothing else changes |
| App.GoHome | App.tsx:118 | the logo returns to setup and changes nothing else, so it keeps the leaderboard's score at 0 (App.StepKeepsScoreZero) |
| App.HandleSetTheme | App.tsx:89-100 | an unknown theme changes nothing; a known one is applied and, when logged in, the user's profile reads back with that theme and otherwise as before; nothing but the theme and the store changes |
| App.HandleSetLanguage | App.tsx:103-110 | the language is applied and, when logged in, the user's profile reads back with that language and otherwise as before; nothing but the language and the store changes |
| App.ThemeRestoredOnLogin | App.tsx:39-100 | a theme chosen while logged in comes back on the next login, whatever theme was on screen meanwhile |
| App.LanguageRestoredOnLogin | App.tsx:39-110 | a language chosen while logged in comes back on the next login |
| App.PreferenceFrame | App.tsx:89-110 | choosing a theme or language touches no other user's profile |
| App.View | App.tsx:144-170 | the login form shows exactly without a user; the leaderboard gets the last score; a game screen always has its configuration; nothing shows for a game mode without one |
| App.StepKeepsScoreZero | App.tsx:64-87 | `Step`: no handler leaves the leaderboard mode with a non-zero last score |
| App.LeaderboardNeverShowsScore | App.tsx:64-170 | `Run`: in every run the leaderboard is handed a score of 0, so the player's own entry never appears there |
| StableSort.SortCorrect | components/Leaderboard.tsx:40 | the sort is a permutation, ordered by key, and keeps each run of equal keys in input order |
| StableSort.SortKeepsTies | components/Setup.tsx:161-165 | two elements with equal keys keep their relative order |
| Rounding.RoundDiv | components/QuizGame.tsx:197 | `Math.round(a / b)` is the integer within half a unit of the quotient, with halves rounded up |
| Rounding.RoundDivUnique | components/QuizGame.tsx:197 | that integer is unique |
| Rounding.RoundDivMonotone | components/QuizGame.tsx:197 | rounding is monotone in the numerator |
| Text.TrimSpec | components/MarkdownRenderer.tsx:31 | `trim` removes exactly the leading and trailing white space and keeps the middle |
| Text.TrimEmptyIff | components/MarkdownRenderer.tsx:32 | a line trims to "" exactly when it is all white space |
| Text.SplitJoin | components/MarkdownRenderer.tsx:27 | joining the parts of a split with the separator gives back the text |
| Text.SplitCount | components/MarkdownRenderer.tsx:27 | a split has one more part than the separator occurs |
| Text.IndexOf | components/QuizGame.tsx:117 | `indexOf` is the first position holding the value, or -1 exactly when it is absent |
| Text.PadStart | components/PodcastPlayer.tsx:151 | `padStart` fills with the pad character on the left up to the length and keeps the text at the end |
| Text.NatToStringRoundTrip | components/PodcastPlayer.tsx:151 | the decimal digits of a number read back as that number |
| Text.RemoveTripleLead | services/genai.ts:333 | removing every "```" leaves a run of backticks of the original length modulo 3 |
| Text.RemoveTripleClean | services/genai.ts:333 | after removing every "```" none is left |

## Left out

- Browser APIs are not modelled: local storage access, JSON (de)serialisation, the microphone, Web Audio, `atob`, timers and React rendering. Their results are parameters or state fields.
- Model calls are not modelled. Every reply of the model (text, parsed JSON, audio bytes, grade) is an input, as are the clock (`Date.now()`, `currentTime`) and the Google sign-in outcome.
- Google OAuth and Drive (`loginWithGoogle`, `services/googleDrive.ts`), `extractTextFromMedia`, `generateFlashcards` and file upload are not part of this model beyond their outcomes.
- The QuizGame speech playback and the PodcastPlayer seek and speed controls are outside the model. Only `handleEnded` and `formatTime` are modelled.
- The translations (`t()`), `utils/audio`, the icons, colours and labels are not part of this model; a grade band stands for its label.
- Concurrency is not modelled. Each handler runs atomically, and the fire-and-forget `sessionPromise.then(...)` sends are taken as outputs of the handler. The read of `nextStartTime` before an `await` (components/LiveGame.tsx:182-183) is taken as if no other chunk interleaves.
- A `toolCall` without a `functionCalls` array is not modelled. The source's `for…of` over `undefined` would throw (components/LiveGame.tsx:153); the model reads a missing array as no calls.
- `setTimeout` before the flashcard step is taken as immediate, so the stale closure in `handleNext` is not modelled.
- The learned-flashcard methods called by FlashcardGame are not defined in `services/auth.ts`. A map from user id to a set of learned fronts stands in for them.
- String lengths count Dafny characters, not UTF-16 code units.
- Object keys are strings. Keys that collide with `Object.prototype` names (e.g. `themes["constructor"]`) are not modelled, and neither is the JavaScript rule that lists integer-like keys of `topicStats` first.
- AuthStore.UpdateUserStats: the statistics keep their insertion order. The ascending order of integer-like topic names in `Object.keys` is not modelled.
- Numbers are exact rationals. NaN, Infinity and float rounding ties are not modelled. Leaderboard scores are integers, and PodcastPlayer times are a finite value or NaN, so `formatTime(Infinity)` is not covered.
- Setup.AnalyticsSpec: requires every topic total to be positive. With a zero total the source's comparator yields NaN and the order is unspecified.
- Setup.QuestionCountInput: `parseInt` itself is an input. A negative count passes through, as in the source.
- App.ThemeRestoredOnLogin, App.LanguageRestoredOnLogin, App.PreferenceFrame: require every stored profile to sit under its own user id, which the source always maintains.
- AuthStore.UpdateUserStats: the profile is written back under the id it carries. The frame is stated for a store whose profiles are keyed by their own id.
- GenAI.GenerateSpeech: an odd byte count makes the source's `Int16Array` constructor throw, and a zero byte count makes `createBuffer` throw, both outside the `try` block. The model returns `Rejected` instead of an exception.
- LiveGame.OnAudio: when there is no output context, the early return also skips the interruption block of the same message. The model keeps that.
- QuizGame.GradeChoice: with `correctAnswerIndex` equal to -1, any answer that is not an option is graded correct, as `indexOf` returns -1 (`QuizGame.ChoiceOutOfRange`).
