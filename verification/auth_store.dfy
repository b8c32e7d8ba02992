/** The account and profile store of services/auth.ts. localStorage holds
    three kinds of entry: the user list under "studyAi_usersDB", the current
    user under "studyAi_currentUser", and one profile per user id under
    "studyAi_profile_" + id. `KeysDistinct` shows that no profile key can
    coincide with the other two, so the store is modelled as three separate
    parts with the JSON (de)serialisation left out. An absent user list reads
    as the empty list, so the list is never optional here. */
module AuthStore {
  import opened Types
  import Text

  const UsersKey := "studyAi_usersDB"
  const CurrentUserKey := "studyAi_currentUser"
  const ProfilePrefix := "studyAi_profile_"

  const UserExists := "User already exists"
  const InvalidCredentials := "Invalid credentials."
  /** The avatar given to a manually registered user. */
  const ManualAvatar := "👤"
  /** Topic names longer than this are shortened in the statistics. */
  const TopicLimit := 20

  function ProfileKey(userId: string): string {
    ProfilePrefix + userId
  }

  /** Profile keys differ from both fixed keys, and different ids have
      different profile keys. */
  lemma KeysDistinct(a: string, b: string)
    ensures ProfileKey(a) != UsersKey && ProfileKey(a) != CurrentUserKey
    ensures UsersKey != CurrentUserKey
    ensures ProfileKey(a) == ProfileKey(b) ==> a == b
  {
    assert ProfileKey(a)[8] == 'p' && UsersKey[8] == 'u' && CurrentUserKey[8] == 'c';
    if ProfileKey(a) == ProfileKey(b) {
      assert a == ProfileKey(a)[|ProfilePrefix|..];
      assert b == ProfileKey(b)[|ProfilePrefix|..];
    }
  }

  datatype Store = Store(users: seq<User>, current: Option<User>, profiles: map<string, UserProfile>)

  function Empty(): Store {
    Store([], None, map[])
  }

  /** Every profile is stored under its own user id, as `saveUserProfile` does. */
  ghost predicate ProfilesKeyed(st: Store) {
    forall id :: id in st.profiles ==> st.profiles[id].userId == id
  }

  ghost predicate UniqueIds(users: seq<User>) {
    forall i, j :: 0 <= i < j < |users| ==> users[i].id != users[j].id
  }

  predicate HasId(users: seq<User>, id: string) {
    exists i :: 0 <= i < |users| && users[i].id == id
  }

  /** `users.find(u => u.email === email)`: the first user with that email. */
  function FindByEmail(users: seq<User>, email: string): (r: Option<User>)
    ensures r.Some? ==> r.value in users && r.value.email == email
    ensures r.None? <==> forall i :: 0 <= i < |users| ==> users[i].email != email
    ensures r.Some? ==> exists i :: 0 <= i < |users| && users[i] == r.value
                          && forall j :: 0 <= j < i ==> users[j].email != email
    decreases |users|
  {
    if |users| == 0 then None
    else if users[0].email == email then Some(users[0])
    else
      var r := FindByEmail(users[1..], email);
      assert forall i :: 1 <= i < |users| ==> users[i] == users[1..][i - 1];
      if r.Some? then
        var k :| 0 <= k < |users[1..]| && users[1..][k] == r.value
                 && forall j :: 0 <= j < k ==> users[1..][j].email != email;
        assert users[k + 1] == r.value;
        r
      else r
  }

  function GetUsersDB(st: Store): seq<User> {
    st.users
  }

  /** `saveUserToDB`: the user is appended only when no stored user has its id. */
  function SaveUserToDB(st: Store, u: User): (r: Store)
    ensures HasId(r.users, u.id)
    ensures HasId(st.users, u.id) ==> r == st
    ensures !HasId(st.users, u.id) ==> r == st.(users := st.users + [u])
    ensures r.current == st.current && r.profiles == st.profiles
  {
    if HasId(st.users, u.id) then st
    else
      var users := st.users + [u];
      assert users[|users| - 1].id == u.id;
      st.(users := users)
  }

  /** Saving a user never introduces a second entry with the same id. */
  lemma SaveKeepsIdsUnique(st: Store, u: User)
    requires UniqueIds(st.users)
    ensures UniqueIds(SaveUserToDB(st, u).users)
  {
  }

  function GetCurrentUser(st: Store): Option<User> {
    st.current
  }

  /** The id `'user_' + Date.now()`, with the clock reading as a parameter. */
  function NewUserId(now: int): string {
    "user_" + Text.IntToString(now)
  }

  /** `register`: refused when the email is already stored; otherwise the new
      user is saved to the list (when its id is fresh) and made current. */
  function Register(st: Store, name: string, email: string, now: int): (r: Result<(Store, User)>)
    ensures r.Err? <==> FindByEmail(st.users, email).Some?
    ensures r.Err? ==> r.message == UserExists
    ensures r.Ok? ==>
      var (st', u) := r.value;
      && u == User(NewUserId(now), name, email, Some(ManualAvatar))
      && st'.current == Some(u)
      && st'.profiles == st.profiles
      && HasId(st'.users, u.id)
      && (HasId(st.users, u.id) ==> st'.users == st.users)
      && (!HasId(st.users, u.id) ==> st'.users == st.users + [u])
  {
    if FindByEmail(st.users, email).Some? then Err(UserExists)
    else
      var u := User(NewUserId(now), name, email, Some(ManualAvatar));
      Ok((SaveUserToDB(st, u).(current := Some(u)), u))
  }

  /** `login`: the first stored user with the email becomes current; no
      password is consulted. */
  function Login(st: Store, email: string): (r: Result<(Store, User)>)
    ensures r.Err? <==> forall i :: 0 <= i < |st.users| ==> st.users[i].email != email
    ensures r.Err? ==> r.message == InvalidCredentials
    ensures r.Ok? ==> (&& r.value.1 == FindByEmail(st.users, email).value
                       && r.value.1.email == email
                       && r.value.0 == st.(current := Some(r.value.1)))
  {
    match FindByEmail(st.users, email)
    case None => Err(InvalidCredentials)
    case Some(u) => Ok((st.(current := Some(u)), u))
  }

  /** A registration whose generated id is fresh can be logged into at once
      with the same email, and the login finds the registered user. */
  lemma RegisterThenLogin(st: Store, name: string, email: string, now: int)
    requires FindByEmail(st.users, email).None?
    requires !HasId(st.users, NewUserId(now))
    ensures Register(st, name, email, now).Ok?
    ensures var (st', u) := Register(st, name, email, now).value;
      Login(st', email) == Ok((st', u))
  {
    var (st', u) := Register(st, name, email, now).value;
    assert st'.users == st.users + [u];
    assert forall i :: 0 <= i < |st.users| ==> st'.users[i].email != email;
    assert st'.users[|st.users|] == u;
    assert st'.users[|st.users|..] == [u];
    FindAfterMisses(st.users, [u], email);
  }

  /** A search that misses every element of `a` continues into `b`. */
  lemma {:induction false} FindAfterMisses(a: seq<User>, b: seq<User>, email: string)
    requires forall i :: 0 <= i < |a| ==> a[i].email != email
    ensures FindByEmail(a + b, email) == FindByEmail(b, email)
    decreases |a|
  {
    if |a| > 0 {
      assert (a + b)[1..] == a[1..] + b;
      FindAfterMisses(a[1..], b, email);
    } else {
      assert a + b == b;
    }
  }

  /** `logout` removes only the current-user entry. */
  function Logout(st: Store): (r: Store)
    ensures r.current.None?
    ensures r.users == st.users && r.profiles == st.profiles
  {
    st.(current := None)
  }

  /** The profile a user without a stored one starts with. */
  function DefaultProfile(userId: string): (p: UserProfile)
    ensures p.userId == userId && p.savedSyllabus == "" && p.lastLanguage == "English"
    ensures p.totalScore == 0 && p.topicStats == Some([])
    ensures p.themePreference.None? && p.isPro.None? && p.failedQuestions.None?
    ensures p.learnedFlashcards.None? && p.dailyUsage.None? && p.lastUsageDate.None? && p.customApiKey.None?
  {
    UserProfile(userId, "", "English", 0, None, Some([]), None, None, None, None, None, None)
  }

  /** `getUserProfile`: the stored profile, or the default for an unknown id. */
  function GetUserProfile(st: Store, userId: string): (p: UserProfile)
    ensures userId !in st.profiles ==> p == DefaultProfile(userId)
    ensures userId in st.profiles ==> p == st.profiles[userId]
    ensures ProfilesKeyed(st) ==> p.userId == userId
  {
    if userId in st.profiles then st.profiles[userId] else DefaultProfile(userId)
  }

  /** `saveUserProfile` stores the profile under its own id. */
  function SaveUserProfile(st: Store, p: UserProfile): (r: Store)
    ensures r.profiles == st.profiles[p.userId := p]
    ensures r.users == st.users && r.current == st.current
    ensures ProfilesKeyed(st) ==> ProfilesKeyed(r)
  {
    st.(profiles := st.profiles[p.userId := p])
  }

  /** Saving and reading back returns the saved profile; other ids are untouched. */
  lemma SaveThenGet(st: Store, p: UserProfile, other: string)
    ensures GetUserProfile(SaveUserProfile(st, p), p.userId) == p
    ensures other != p.userId ==>
      GetUserProfile(SaveUserProfile(st, p), other) == GetUserProfile(st, other)
  {
  }

  // ---------------------------------------------------------------- topic statistics

  /** Topics longer than 20 characters keep their first 20 followed by "...". */
  function NormalizeTopic(topic: string): (r: string)
    ensures |topic| <= TopicLimit ==> r == topic
    ensures |topic| > TopicLimit ==> r == topic[..TopicLimit] + "..." && |r| == TopicLimit + 3
  {
    if |topic| > TopicLimit then Text.Prefix(topic, TopicLimit) + "..." else topic
  }

  /** Normalising twice is normalising once, and a topic is left as it is
      exactly when it is short or already shortened-looking (23 characters
      ending in "..."). */
  lemma NormalizeIdempotent(topic: string)
    ensures NormalizeTopic(NormalizeTopic(topic)) == NormalizeTopic(topic)
    ensures NormalizeTopic(topic) == topic <==>
      |topic| <= TopicLimit || (|topic| == TopicLimit + 3 && Text.EndsWith(topic, "..."))
  {
    var n := NormalizeTopic(topic);
    if |topic| > TopicLimit {
      assert n[..TopicLimit] == topic[..TopicLimit];
      if |topic| == TopicLimit + 3 && Text.EndsWith(topic, "...") {
        assert topic == topic[..TopicLimit] + topic[TopicLimit..];
      }
    }
  }

  /** The entry for `topic` in the statistics record. */
  function Lookup(stats: seq<StatEntry>, topic: string): (r: Option<TopicStat>)
    ensures r.None? <==> forall i :: 0 <= i < |stats| ==> stats[i].topic != topic
    decreases |stats|
  {
    if |stats| == 0 then None
    else if stats[0].topic == topic then Some(stats[0].stat)
    else
      assert forall i :: 1 <= i < |stats| ==> stats[i] == stats[1..][i - 1];
      Lookup(stats[1..], topic)
  }

  function Topics(stats: seq<StatEntry>): seq<string> {
    seq(|stats|, i requires 0 <= i < |stats| => stats[i].topic)
  }

  /** Counters that make sense: 0 <= correct <= total. */
  ghost predicate StatsSound(stats: seq<StatEntry>) {
    forall i :: 0 <= i < |stats| ==> 0 <= stats[i].stat.correct <= stats[i].stat.total
  }

  ghost predicate UniqueTopics(stats: seq<StatEntry>) {
    forall i, j :: 0 <= i < j < |stats| ==> stats[i].topic != stats[j].topic
  }

  /** One answer on `topic`: a missing entry is created at {0, 0} at the end of
      the record, then total grows by one and correct by one when correct. */
  function Bump(stats: seq<StatEntry>, topic: string, isCorrect: bool): (r: seq<StatEntry>)
    decreases |stats|
  {
    if |stats| == 0 then [StatEntry(topic, TopicStat(if isCorrect then 1 else 0, 1))]
    else if stats[0].topic == topic then
      [StatEntry(topic, TopicStat(stats[0].stat.correct + (if isCorrect then 1 else 0),
                                  stats[0].stat.total + 1))] + stats[1..]
    else [stats[0]] + Bump(stats[1..], topic, isCorrect)
  }

  /** The bumped topic moves by one answer and every other topic keeps its counters. */
  lemma {:induction false} BumpLookup(stats: seq<StatEntry>, topic: string, isCorrect: bool, other: string)
    ensures var prev := Lookup(stats, topic).GetOr(TopicStat(0, 0));
      Lookup(Bump(stats, topic, isCorrect), topic)
        == Some(TopicStat(prev.correct + (if isCorrect then 1 else 0), prev.total + 1))
    ensures other != topic ==> Lookup(Bump(stats, topic, isCorrect), other) == Lookup(stats, other)
    decreases |stats|
  {
    if |stats| > 0 && stats[0].topic != topic {
      BumpLookup(stats[1..], topic, isCorrect, other);
      assert Bump(stats, topic, isCorrect)[1..] == Bump(stats[1..], topic, isCorrect);
    }
  }

  /** The topic order is kept, and a new topic goes last. */
  lemma {:induction false} BumpTopics(stats: seq<StatEntry>, topic: string, isCorrect: bool)
    ensures Lookup(stats, topic).Some? ==> Topics(Bump(stats, topic, isCorrect)) == Topics(stats)
    ensures Lookup(stats, topic).None? ==> Topics(Bump(stats, topic, isCorrect)) == Topics(stats) + [topic]
    decreases |stats|
  {
    if |stats| > 0 {
      var r := Bump(stats, topic, isCorrect);
      var tail := stats[1..];
      assert Topics(stats) == [stats[0].topic] + Topics(tail);
      if stats[0].topic == topic {
        assert r[1..] == tail;
        assert Topics(r) == [topic] + Topics(tail);
      } else {
        BumpTopics(tail, topic, isCorrect);
        assert r[1..] == Bump(tail, topic, isCorrect);
        assert Topics(r) == [stats[0].topic] + Topics(Bump(tail, topic, isCorrect));
      }
    }
  }

  /** Sound counters stay sound, and the bumped entry has total >= 1. */
  lemma {:induction false} BumpSound(stats: seq<StatEntry>, topic: string, isCorrect: bool)
    requires StatsSound(stats)
    ensures StatsSound(Bump(stats, topic, isCorrect))
    ensures Lookup(Bump(stats, topic, isCorrect), topic).Some?
    ensures Lookup(Bump(stats, topic, isCorrect), topic).value.total >= 1
    decreases |stats|
  {
    var r := Bump(stats, topic, isCorrect);
    if |stats| > 0 {
      if stats[0].topic == topic {
        assert forall i :: 1 <= i < |r| ==> r[i] == stats[i];
      } else {
        var tail := stats[1..];
        assert forall i :: 1 <= i < |stats| ==> stats[i] == tail[i - 1];
        BumpSound(tail, topic, isCorrect);
        assert forall i :: 1 <= i < |r| ==> r[i] == Bump(tail, topic, isCorrect)[i - 1];
      }
    }
  }

  /** A record without duplicate topics keeps none. */
  lemma BumpUnique(stats: seq<StatEntry>, topic: string, isCorrect: bool)
    requires UniqueTopics(stats)
    ensures UniqueTopics(Bump(stats, topic, isCorrect))
  {
    var r := Bump(stats, topic, isCorrect);
    BumpTopics(stats, topic, isCorrect);
    assert |Topics(r)| == |r|;
    forall i, j | 0 <= i < j < |r|
      ensures r[i].topic != r[j].topic
    {
      assert Topics(r)[i] == r[i].topic && Topics(r)[j] == r[j].topic;
      if Lookup(stats, topic).None? && j == |stats| {
        assert Topics(r)[i] == stats[i].topic;
      } else {
        assert Topics(r)[i] == stats[i].topic && Topics(r)[j] == stats[j].topic;
      }
    }
  }

  /** `updateUserStats`: one answer is recorded under the normalised topic of
      the user's profile (created with an empty record when missing). The
      profile is saved under the id it carries, which is `userId` whenever
      every stored profile sits under its own id. */
  function UpdateUserStats(st: Store, userId: string, topic: string, isCorrect: bool): (r: Store)
    ensures r.users == st.users && r.current == st.current
    ensures ProfilesKeyed(st) ==> ProfilesKeyed(r)
    ensures ProfilesKeyed(st) ==> forall id :: id != userId && id in st.profiles ==> id in r.profiles && r.profiles[id] == st.profiles[id]
  {
    var p := GetUserProfile(st, userId);
    var stats := p.topicStats.GetOr([]);
    SaveUserProfile(st, p.(topicStats := Some(Bump(stats, NormalizeTopic(topic), isCorrect))))
  }

  /** Reading the profile after an update: the normalised topic gained one
      answer (and one correct answer when correct), every other topic and
      every other profile field is as before. */
  lemma UpdateThenGet(st: Store, userId: string, topic: string, isCorrect: bool, other: string)
    requires ProfilesKeyed(st)
    ensures var before := GetUserProfile(st, userId);
      var after := GetUserProfile(UpdateUserStats(st, userId, topic, isCorrect), userId);
      var key := NormalizeTopic(topic);
      var prev := Lookup(before.topicStats.GetOr([]), key).GetOr(TopicStat(0, 0));
      && after.topicStats.Some?
      && Lookup(after.topicStats.value, key)
           == Some(TopicStat(prev.correct + (if isCorrect then 1 else 0), prev.total + 1))
      && (other != key ==> Lookup(after.topicStats.value, other) == Lookup(before.topicStats.GetOr([]), other))
      && after == before.(topicStats := after.topicStats)
  {
    var p := GetUserProfile(st, userId);
    BumpLookup(p.topicStats.GetOr([]), NormalizeTopic(topic), isCorrect, other);
  }

  /** `clearUserStudyData`: syllabus, statistics and total score are reset. */
  function ClearUserStudyData(st: Store, userId: string): (r: Store)
    ensures r.users == st.users && r.current == st.current
    ensures ProfilesKeyed(st) ==> ProfilesKeyed(r)
    ensures ProfilesKeyed(st) ==> forall id :: id != userId && id in st.profiles ==> id in r.profiles && r.profiles[id] == st.profiles[id]
  {
    var p := GetUserProfile(st, userId);
    SaveUserProfile(st, p.(savedSyllabus := "", topicStats := Some([]), totalScore := 0))
  }

  /** After clearing, the three study fields are reset and every other field
      of the profile (theme, pro flag, failed questions, learned cards, usage,
      key, language) is preserved. */
  lemma ClearThenGet(st: Store, userId: string)
    requires ProfilesKeyed(st)
    ensures var before := GetUserProfile(st, userId);
      var after := GetUserProfile(ClearUserStudyData(st, userId), userId);
      && after.savedSyllabus == "" && after.topicStats == Some([]) && after.totalScore == 0
      && after == before.(savedSyllabus := "", topicStats := Some([]), totalScore := 0)
  {
  }
}
