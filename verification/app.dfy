/** The top-level state of App.tsx: the current mode, the game configuration,
    the last score, the interface language, the theme and the logged-in user,
    the handlers that change them, and which screen is rendered. Themes are
    represented by their ids in the table of utils/themes.ts; the account
    store is the model of services/auth.ts. */
module App {
  import opened Types
  import AuthStore

  const DefaultTheme := "serious"

  /** The keys of the theme table. */
  const Themes: set<string> := {"serious", "dark", "neon", "matrix", "candy"}

  datatype AppState = AppState(
    mode: GameMode,
    config: Option<GameConfig>,
    lastScore: int,
    language: string,
    theme: string,
    currentUser: Option<User>,
    store: AuthStore.Store)

  /** The first render: the set-up screen, no configuration, score 0, the
      detected browser language and the default theme, nobody logged in. */
  function Initial(detected: string, st: AuthStore.Store): AppState {
    AppState(SetupMode, None, 0, detected, DefaultTheme, None, st)
  }

  /** `handleLogin`: the user becomes current; a saved theme is applied only
      when the table has it, a saved language only when it is non-empty. */
  function HandleLogin(a: AppState, user: User): (r: AppState)
    ensures r.currentUser == Some(user)
    ensures var p := AuthStore.GetUserProfile(a.store, user.id);
      && (p.themePreference.Some? && p.themePreference.value in Themes ==> r.theme == p.themePreference.value)
      && (!(p.themePreference.Some? && p.themePreference.value in Themes) ==> r.theme == a.theme)
      && (p.lastLanguage != "" ==> r.language == p.lastLanguage)
      && (p.lastLanguage == "" ==> r.language == a.language)
    ensures r.mode == a.mode && r.config == a.config && r.lastScore == a.lastScore && r.store == a.store
  {
    var p := AuthStore.GetUserProfile(a.store, user.id);
    var a1 := a.(currentUser := Some(user));
    var a2 := if p.themePreference.Some? && p.themePreference.value in Themes then a1.(theme := p.themePreference.value) else a1;
    if p.lastLanguage != "" then a2.(language := p.lastLanguage) else a2
  }

  /** The mount effect: a session left in the store is logged in again,
      through `handleLogin`, so its saved theme and language come back. */
  function Mount(a: AppState): (r: AppState)
    ensures a.store.current.None? ==> r == a
    ensures a.store.current.Some? ==> r.currentUser == a.store.current
    ensures a.store.current.Some? ==> r == HandleLogin(a, a.store.current.value)
    ensures a.store.current.Some? ==>
      var p := AuthStore.GetUserProfile(a.store, a.store.current.value.id);
      && (p.themePreference.Some? && p.themePreference.value in Themes ==> r.theme == p.themePreference.value)
      && (!(p.themePreference.Some? && p.themePreference.value in Themes) ==> r.theme == a.theme)
      && (p.lastLanguage != "" ==> r.language == p.lastLanguage)
      && (p.lastLanguage == "" ==> r.language == a.language)
  {
    match AuthStore.GetCurrentUser(a.store)
    case Some(u) => HandleLogin(a, u)
    case None => a
  }

  /** A user without a profile is switched to English on login, because the
      default profile's language is "English". */
  lemma FirstLoginIsEnglish(a: AppState, user: User)
    requires user.id !in a.store.profiles
    ensures HandleLogin(a, user).language == "English"
    ensures HandleLogin(a, user).theme == a.theme
  {
  }

  /** `handleLogout`: the session ends, the set-up screen returns and the
      configuration is dropped; theme, language and score stay. */
  function HandleLogout(a: AppState): (r: AppState)
    ensures r.currentUser.None? && r.mode == SetupMode && r.config.None?
    ensures r.theme == a.theme && r.language == a.language && r.lastScore == a.lastScore
    ensures r.store.current.None? && r.store.users == a.store.users && r.store.profiles == a.store.profiles
  {
    a.(store := AuthStore.Logout(a.store), currentUser := None, mode := SetupMode, config := None)
  }

  /** `handleStart`: the configuration and mode are stored; opening the
      leaderboard also resets the last score. */
  function HandleStart(a: AppState, config: GameConfig, mode: GameMode): (r: AppState)
    ensures r.config == Some(config) && r.mode == mode
    ensures mode == LeaderboardMode ==> r.lastScore == 0
    ensures mode != LeaderboardMode ==> r.lastScore == a.lastScore
    ensures r.currentUser == a.currentUser && r.theme == a.theme && r.language == a.language && r.store == a.store
  {
    var a1 := a.(config := Some(config), mode := mode);
    if mode == LeaderboardMode then a1.(lastScore := 0) else a1
  }

  /** `handleGameExit`: the score is kept, the set-up screen returns, the
      configuration is dropped. */
  function HandleGameExit(a: AppState, score: int): (r: AppState)
    ensures r == a.(lastScore := score, mode := SetupMode, config := None)
  {
    a.(lastScore := score, mode := SetupMode, config := None)
  }

  /** `handleCloseLeaderboard`: back to set-up with score 0, configuration kept. */
  function HandleCloseLeaderboard(a: AppState): (r: AppState)
    ensures r.mode == SetupMode && r.lastScore == 0 && r.config == a.config
    ensures r == a.(mode := SetupMode, lastScore := 0)
  {
    a.(mode := SetupMode, lastScore := 0)
  }

  /** `handleReset`: back to set-up with score 0 and no configuration. */
  function HandleReset(a: AppState): (r: AppState)
    ensures r.mode == SetupMode && r.lastScore == 0 && r.config.None?
    ensures r.currentUser == a.currentUser && r.theme == a.theme && r.store == a.store
    ensures r == a.(mode := SetupMode, config := None, lastScore := 0)
  {
    a.(mode := SetupMode, config := None, lastScore := 0)
  }

  /** The logo and the exits of the study hub and the math tutor: back to
      set-up with everything else kept. */
  function GoHome(a: AppState): (r: AppState)
    ensures r == a.(mode := SetupMode)
  {
    a.(mode := SetupMode)
  }

  /** `handleSetTheme`: an unknown id changes nothing; a known one is applied
      and, for a logged-in user, saved in the profile. */
  function HandleSetTheme(a: AppState, themeId: string): (r: AppState)
    ensures themeId !in Themes ==> r == a
    ensures themeId in Themes ==> r.theme == themeId
    ensures themeId in Themes && a.currentUser.None? ==> r == a.(theme := themeId)
    ensures themeId in Themes && a.currentUser.Some? && AuthStore.ProfilesKeyed(a.store) ==>
      AuthStore.GetUserProfile(r.store, a.currentUser.value.id)
        == AuthStore.GetUserProfile(a.store, a.currentUser.value.id).(themePreference := Some(themeId))
    ensures r == a.(theme := r.theme, store := r.store)
  {
    if themeId !in Themes then a
    else
      var a1 := a.(theme := themeId);
      match a.currentUser
      case Some(u) =>
        var p := AuthStore.GetUserProfile(a.store, u.id);
        AuthStore.SaveThenGet(a.store, p.(themePreference := Some(themeId)), u.id);
        a1.(store := AuthStore.SaveUserProfile(a.store, p.(themePreference := Some(themeId))))
      case None => a1
  }

  /** `handleSetLanguage`: the language is applied and, for a logged-in user,
      saved in the profile. */
  function HandleSetLanguage(a: AppState, lang: string): (r: AppState)
    ensures r.language == lang
    ensures a.currentUser.None? ==> r == a.(language := lang)
    ensures a.currentUser.Some? && AuthStore.ProfilesKeyed(a.store) ==>
      AuthStore.GetUserProfile(r.store, a.currentUser.value.id)
        == AuthStore.GetUserProfile(a.store, a.currentUser.value.id).(lastLanguage := lang)
    ensures r == a.(language := r.language, store := r.store)
  {
    var a1 := a.(language := lang);
    match a.currentUser
    case Some(u) =>
      var p := AuthStore.GetUserProfile(a.store, u.id);
      AuthStore.SaveThenGet(a.store, p.(lastLanguage := lang), u.id);
      a1.(store := AuthStore.SaveUserProfile(a.store, p.(lastLanguage := lang)))
    case None => a1
  }

  /** A theme chosen while logged in comes back on the next login of the
      same user, whatever theme is showing by then. The store keeps every
      profile under its own user id, as every write through the account
      service does. */
  lemma ThemeRestoredOnLogin(a: AppState, themeId: string, other: string)
    requires a.currentUser.Some? && themeId in Themes && AuthStore.ProfilesKeyed(a.store)
    ensures var b := HandleLogout(HandleSetTheme(a, themeId)).(theme := other);
      HandleLogin(b, a.currentUser.value).theme == themeId
  {
    var u := a.currentUser.value;
    var p := AuthStore.GetUserProfile(a.store, u.id);
    AuthStore.SaveThenGet(a.store, p.(themePreference := Some(themeId)), u.id);
  }

  /** A non-empty language chosen while logged in comes back on the next login. */
  lemma LanguageRestoredOnLogin(a: AppState, lang: string, other: string)
    requires a.currentUser.Some? && lang != "" && AuthStore.ProfilesKeyed(a.store)
    ensures var b := HandleLogout(HandleSetLanguage(a, lang)).(language := other);
      HandleLogin(b, a.currentUser.value).language == lang
  {
    var u := a.currentUser.value;
    var p := AuthStore.GetUserProfile(a.store, u.id);
    AuthStore.SaveThenGet(a.store, p.(lastLanguage := lang), u.id);
  }

  /** Saving a preference touches only the current user's profile. */
  lemma PreferenceFrame(a: AppState, themeId: string, lang: string, id: string)
    requires a.currentUser.Some? && id != a.currentUser.value.id && AuthStore.ProfilesKeyed(a.store)
    ensures AuthStore.GetUserProfile(HandleSetTheme(a, themeId).store, id) == AuthStore.GetUserProfile(a.store, id)
    ensures AuthStore.GetUserProfile(HandleSetLanguage(a, lang).store, id) == AuthStore.GetUserProfile(a.store, id)
  {
    var u := a.currentUser.value;
    var p := AuthStore.GetUserProfile(a.store, u.id);
    AuthStore.SaveThenGet(a.store, p.(themePreference := Some(themeId)), id);
    AuthStore.SaveThenGet(a.store, p.(lastLanguage := lang), id);
  }

  // ---------------------------------------------------------------- screens

  datatype Screen =
    | AuthScreen | SetupScreen | LiveScreen(config: GameConfig) | QuizScreen(config: GameConfig)
    | HubScreen(config: GameConfig) | TutorScreen | LeaderboardScreen(currentScore: int) | Nothing

  /** The main area: the sign-in form without a user; otherwise the screen of
      the mode, where the game screens also need a configuration. */
  function View(a: AppState): (r: Screen)
    ensures r == AuthScreen <==> a.currentUser.None?
    ensures a.currentUser.Some? && a.mode == LeaderboardMode ==> r == LeaderboardScreen(a.lastScore)
    ensures a.currentUser.Some? && a.mode == SetupMode ==> r == SetupScreen
    ensures r == Nothing <==> a.currentUser.Some? && a.mode !in {SetupMode, LeaderboardMode} && a.config.None?
    ensures r.LiveScreen? || r.QuizScreen? || r.HubScreen? ==> a.config == Some(r.config)
  {
    if a.currentUser.None? then AuthScreen
    else match a.mode
      case SetupMode => SetupScreen
      case LeaderboardMode => LeaderboardScreen(a.lastScore)
      case LiveVoice => if a.config.Some? then LiveScreen(a.config.value) else Nothing
      case QuizSearch => if a.config.Some? then QuizScreen(a.config.value) else Nothing
      case StudyHub => if a.config.Some? then HubScreen(a.config.value) else Nothing
      case MathTutor => if a.config.Some? then TutorScreen else Nothing
  }

  // ---------------------------------------------------------------- reachable states

  /** The leaderboard mode is only ever entered through `handleStart`, which
      zeroes the score. */
  predicate LeaderboardScoreZero(a: AppState) {
    a.mode == LeaderboardMode ==> a.lastScore == 0
  }

  /** The events the app reacts to. */
  datatype Event =
    | Login(user: User) | Logout | Start(config: GameConfig, mode: GameMode) | GameExit(score: int)
    | CloseLeaderboard | Reset | Home | SetTheme(themeId: string) | SetLanguage(lang: string)

  function Step(a: AppState, e: Event): AppState {
    match e
    case Login(u) => HandleLogin(a, u)
    case Logout => HandleLogout(a)
    case Start(c, m) => HandleStart(a, c, m)
    case GameExit(s) => HandleGameExit(a, s)
    case CloseLeaderboard => HandleCloseLeaderboard(a)
    case Reset => HandleReset(a)
    case Home => GoHome(a)
    case SetTheme(t) => HandleSetTheme(a, t)
    case SetLanguage(l) => HandleSetLanguage(a, l)
  }

  function Run(a: AppState, events: seq<Event>): AppState
    decreases |events|
  {
    if |events| == 0 then a else Run(Step(a, events[0]), events[1..])
  }

  /** Every event keeps the leaderboard's score at 0. */
  lemma StepKeepsScoreZero(a: AppState, e: Event)
    requires LeaderboardScoreZero(a)
    ensures LeaderboardScoreZero(Step(a, e))
  {
  }

  /** From the first render, whatever happens, the leaderboard is always
      shown with score 0, so the player's own entry is never merged in: the
      score a game reports on exit is overwritten before the board opens. */
  lemma {:induction false} LeaderboardNeverShowsScore(a: AppState, events: seq<Event>)
    requires LeaderboardScoreZero(a)
    ensures LeaderboardScoreZero(Run(a, events))
    ensures View(Run(a, events)).LeaderboardScreen? ==> View(Run(a, events)).currentScore == 0
    decreases |events|
  {
    if |events| > 0 {
      StepKeepsScoreZero(a, events[0]);
      LeaderboardNeverShowsScore(Step(a, events[0]), events[1..]);
    }
  }
}
