/** The leaderboard of components/Leaderboard.tsx: seven fixed entries, the
    player's own entry merged in when there is a session score, a stable sort
    by descending score, ranks by position, and the friends tab. */
module Leaderboard {
  import opened Types
  import StableSort

  const UserId := "user"
  const UserName := "YOU"
  const UserAvatar := "👤"

  /** The seven fixed entries of `generateMockData`, in their listed order. */
  function Mock(): (r: seq<LeaderboardEntry>)
    ensures |r| == 7
  {
    [ LeaderboardEntry("1", "QuizMaster_99", 15400, "👑", false, Some(1)),
      LeaderboardEntry("2", "TriviaTitan", 12350, "⚡", false, Some(2)),
      LeaderboardEntry("3", "BrainiacBot", 10800, "🤖", false, Some(3)),
      LeaderboardEntry("4", "Alice", 8900, "🦊", true, Some(4)),
      LeaderboardEntry("5", "Bob", 7200, "🐼", true, Some(5)),
      LeaderboardEntry("6", "Charlie", 5400, "🦁", true, Some(6)),
      LeaderboardEntry("7", "NeonRider", 4300, "🏍\U{FE0F}", false, Some(7)) ]
  }

  /** The player's entry; it has no rank until the board is ranked. */
  function YouEntry(score: int): LeaderboardEntry {
    LeaderboardEntry(UserId, UserName, score, UserAvatar, true, None)
  }

  /** Whether the session score makes the player appear on the board. */
  predicate HasSessionScore(currentScore: Option<int>) {
    currentScore.Some? && currentScore.value > 0
  }

  /** The entries before sorting: the fixed ones, then the player's when the
      session score is defined and positive. */
  function Merge(currentScore: Option<int>): (r: seq<LeaderboardEntry>)
    ensures |r| == if HasSessionScore(currentScore) then 8 else 7
    ensures r[..7] == Mock()
    ensures HasSessionScore(currentScore) ==> r[7] == YouEntry(currentScore.value)
    ensures (exists k :: 0 <= k < |r| && r[k].id == UserId) <==> HasSessionScore(currentScore)
  {
    var base := Mock();
    assert forall k :: 0 <= k < 7 ==> base[k].id != UserId;
    if HasSessionScore(currentScore) then base + [YouEntry(currentScore.value)] else base
  }

  /** The key of the comparator `(a, b) => b.score - a.score`: ascending by
      the negated score is descending by the score. */
  function Key(e: LeaderboardEntry): real {
    -(e.score as real)
  }

  /** Every entry's rank becomes its position plus one. */
  function AssignRanks(s: seq<LeaderboardEntry>): (r: seq<LeaderboardEntry>)
    ensures |r| == |s|
    ensures forall i :: 0 <= i < |s| ==> r[i] == s[i].(rank := Some(i + 1))
  {
    seq(|s|, i requires 0 <= i < |s| => s[i].(rank := Some(i + 1)))
  }

  /** Sorted and ranked. */
  function Ranked(xs: seq<LeaderboardEntry>): seq<LeaderboardEntry> {
    AssignRanks(StableSort.Sort(xs, Key))
  }

  /** The effect's result: merged, sorted and ranked. */
  function Board(currentScore: Option<int>): seq<LeaderboardEntry> {
    Ranked(Merge(currentScore))
  }

  /** The ranked list is a permutation of its input with only the ranks
      rewritten, ordered by non-increasing score, with ranks 1..n by position. */
  lemma RankedSpec(xs: seq<LeaderboardEntry>)
    ensures var order := StableSort.Sort(xs, Key);
      && multiset(order) == multiset(xs)
      && |Ranked(xs)| == |xs|
      && (forall i :: 0 <= i < |xs| ==> Ranked(xs)[i] == order[i].(rank := Some(i + 1)))
      && (forall i, j :: 0 <= i < j < |xs| ==> Ranked(xs)[i].score >= Ranked(xs)[j].score)
      && (forall i :: 0 <= i < |xs| ==> Ranked(xs)[i].rank == Some(i + 1))
  {
    StableSort.SortCorrect(xs, Key);
    var order := StableSort.Sort(xs, Key);
    assert forall i, j :: 0 <= i < j < |xs| ==> Key(order[i]) <= Key(order[j]);
  }

  /** Ties keep the input order: of two entries with equal scores, the
      earlier one is ranked first. */
  lemma TiesKeepOrder(xs: seq<LeaderboardEntry>, i: nat, j: nat)
    requires i < j < |xs| && xs[i].score == xs[j].score
    ensures exists p, q :: (0 <= p < q < |Ranked(xs)|
      && Ranked(xs)[p] == xs[i].(rank := Some(p + 1))
      && Ranked(xs)[q] == xs[j].(rank := Some(q + 1)))
  {
    StableSort.SortKeepsTies(xs, Key, i, j);
    var order := StableSort.Sort(xs, Key);
    var p, q :| 0 <= p < q < |order| && order[p] == xs[i] && order[q] == xs[j];
    assert Ranked(xs)[p] == xs[i].(rank := Some(p + 1));
    assert Ranked(xs)[q] == xs[j].(rank := Some(q + 1));
  }

  /** The player, appended last, is ranked below a fixed entry with the same score. */
  lemma YouBelowEqualMock(score: int, k: nat)
    requires score > 0 && k < 7 && Mock()[k].score == score
    ensures exists p, q :: (0 <= p < q < |Board(Some(score))|
      && Board(Some(score))[p].id == Mock()[k].id && Board(Some(score))[q].id == UserId)
  {
    var merged := Merge(Some(score));
    assert merged[k] == Mock()[k] && merged[7].id == UserId;
    TiesKeepOrder(merged, k, 7);
    var board := Ranked(merged);
    var p, q :| 0 <= p < q < |board| && board[p] == merged[k].(rank := Some(p + 1))
      && board[q] == merged[7].(rank := Some(q + 1));
    assert Board(Some(score)) == board;
    assert Board(Some(score))[p].id == Mock()[k].id && Board(Some(score))[q].id == UserId;
  }

  /** Ranking neither adds nor loses an id. */
  lemma RankedIds(xs: seq<LeaderboardEntry>, id: string)
    ensures (exists k :: 0 <= k < |Ranked(xs)| && Ranked(xs)[k].id == id)
      <==> (exists m :: 0 <= m < |xs| && xs[m].id == id)
  {
    StableSort.SortCorrect(xs, Key);
    var order := StableSort.Sort(xs, Key);
    var board := Ranked(xs);
    if k :| 0 <= k < |board| && board[k].id == id {
      assert order[k] in multiset(xs);
      var m :| 0 <= m < |xs| && xs[m] == order[k];
      assert xs[m].id == id;
    }
    if m :| 0 <= m < |xs| && xs[m].id == id {
      assert xs[m] in multiset(order);
      var p :| 0 <= p < |order| && order[p] == xs[m];
      assert board[p].id == id;
    }
  }

  /** The player is on the board exactly when the session score is defined
      and positive, and the board then has eight entries instead of seven. */
  lemma YouPresentIff(currentScore: Option<int>)
    ensures |Board(currentScore)| == if HasSessionScore(currentScore) then 8 else 7
    ensures (exists k :: 0 <= k < |Board(currentScore)| && Board(currentScore)[k].id == UserId)
      <==> HasSessionScore(currentScore)
  {
    var merged := Merge(currentScore);
    RankedIds(merged, UserId);
    StableSort.SortCorrect(merged, Key);
    assert Board(currentScore) == Ranked(merged);
  }

  // ---------------------------------------------------------------- tabs

  datatype Tab = Global | Friends

  /** `entries.filter(e => e.isFriend)`. */
  function FriendsOf(s: seq<LeaderboardEntry>): (r: seq<LeaderboardEntry>)
    decreases |s|
  {
    if |s| == 0 then [] else FriendsOf(s[..|s| - 1]) + (if s[|s| - 1].isFriend then [s[|s| - 1]] else [])
  }

  /** The shown entries: all of them on the global tab, the friends otherwise. */
  function Display(tab: Tab, entries: seq<LeaderboardEntry>): (r: seq<LeaderboardEntry>)
    ensures tab == Global ==> r == entries
  {
    if tab == Global then entries else FriendsOf(entries)
  }

  /** The friends tab keeps exactly the friends, each with its position in the
      full list preserved in order: entry a of the filter sits at a position
      p(a) of the list, the positions increase, and every friend of the list
      is one of them. */
  lemma {:induction false} FriendsExact(s: seq<LeaderboardEntry>)
    ensures forall e :: e in FriendsOf(s) <==> e in s && e.isFriend
    ensures |FriendsOf(s)| <= |s|
    decreases |s|
  {
    if |s| > 0 {
      var init := s[..|s| - 1];
      FriendsExact(init);
      assert s == init + [s[|s| - 1]];
    }
  }

  /** Filtering keeps the relative order: two friends listed in this order
      appear in this order in the friends tab. */
  lemma {:induction false} FriendsKeepOrder(s: seq<LeaderboardEntry>, i: nat, j: nat)
    requires i < j < |s| && s[i].isFriend && s[j].isFriend
    ensures exists a, b :: 0 <= a < b < |FriendsOf(s)| && FriendsOf(s)[a] == s[i] && FriendsOf(s)[b] == s[j]
    decreases |s|
  {
    var n := |s| - 1;
    var f := FriendsOf(s[..n]);
    if j < n {
      FriendsKeepOrder(s[..n], i, j);
      var a, b :| 0 <= a < b < |f| && f[a] == s[..n][i] && f[b] == s[..n][j];
      assert FriendsOf(s)[a] == s[i] && FriendsOf(s)[b] == s[j];
    } else {
      FriendsExact(s[..n]);
      assert s[i] in f;
      var a :| 0 <= a < |f| && f[a] == s[i];
      assert FriendsOf(s)[a] == s[i] && FriendsOf(s)[|f|] == s[j];
    }
  }

  /** An entry of the input shows, with its new rank, on the friends tab
      when it is a friend. */
  lemma FriendRanked(xs: seq<LeaderboardEntry>, k: nat)
    requires k < |xs| && xs[k].isFriend
    ensures exists a :: 0 <= a < |FriendsOf(Ranked(xs))| && FriendsOf(Ranked(xs))[a].id == xs[k].id
  {
    StableSort.SortCorrect(xs, Key);
    var order := StableSort.Sort(xs, Key);
    assert xs[k] in multiset(order);
    var p :| 0 <= p < |order| && order[p] == xs[k];
    var board := Ranked(xs);
    assert board[p].id == xs[k].id && board[p].isFriend;
    FriendsExact(board);
    assert board[p] in FriendsOf(board);
  }

  /** With a session score the player shows on the friends tab. */
  lemma YouAmongFriends(score: int)
    requires score > 0
    ensures exists k :: 0 <= k < |Display(Friends, Board(Some(score)))| && Display(Friends, Board(Some(score)))[k].id == UserId
  {
    var merged := Merge(Some(score));
    FriendRanked(merged, 7);
    var f := FriendsOf(Ranked(merged));
    var a :| 0 <= a < |f| && f[a].id == merged[7].id;
    assert Display(Friends, Board(Some(score)))[a].id == UserId;
  }
}
