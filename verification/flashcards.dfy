/** The flashcard deck of components/FlashcardGame.tsx: loading a generated
    deck without the cards the user has already learned, stepping through it,
    marking cards learned, resetting, and which screen is shown. The
    generated cards are an input. The learned-card store is kept as a map
    from user id to the set of learned fronts; an id without an entry has
    learned nothing. The 200 ms delay before the step is taken as immediate. */
module Flashcards {
  import opened Types

  /** Learned card fronts per user id. */
  type Learned = map<string, set<string>>

  function LearnedBy(learned: Learned, userId: string): set<string> {
    if userId in learned then learned[userId] else {}
  }

  datatype Deck = Deck(cards: seq<Flashcard>, index: int, flipped: bool, loading: bool, finished: bool)

  function Initial(): Deck {
    Deck([], 0, false, false, false)
  }

  /** The index points at a card, or is 0 for an empty deck. */
  predicate Valid(d: Deck) {
    d.index == 0 || 0 <= d.index < |d.cards|
  }

  /** `generated.filter(c => !learned.includes(c.front))`. */
  function Unlearned(cards: seq<Flashcard>, known: set<string>): (r: seq<Flashcard>)
    decreases |cards|
  {
    if |cards| == 0 then []
    else Unlearned(cards[..|cards| - 1], known) + (if cards[|cards| - 1].front in known then [] else [cards[|cards| - 1]])
  }

  /** The filter keeps exactly the cards whose front is not known. */
  lemma {:induction false} UnlearnedExact(cards: seq<Flashcard>, known: set<string>)
    ensures forall c :: c in Unlearned(cards, known) <==> c in cards && c.front !in known
    decreases |cards|
  {
    if |cards| > 0 {
      var last := cards[|cards| - 1];
      var init := cards[..|cards| - 1];
      UnlearnedExact(init, known);
      assert cards == init + [last];
      assert Unlearned(cards, known) == Unlearned(init, known) + (if last.front in known then [] else [last]);
    }
  }

  /** The filter never lengthens the deck, and with nothing known it keeps
      the whole deck. */
  lemma {:induction false} UnlearnedShorter(cards: seq<Flashcard>, known: set<string>)
    ensures |Unlearned(cards, known)| <= |cards|
    ensures known == {} ==> Unlearned(cards, known) == cards
    decreases |cards|
  {
    if |cards| > 0 {
      var last := cards[|cards| - 1];
      var init := cards[..|cards| - 1];
      UnlearnedShorter(init, known);
      assert cards == init + [last];
    }
  }

  /** Kept cards keep their relative order. */
  lemma {:induction false} UnlearnedKeepsOrder(cards: seq<Flashcard>, known: set<string>, i: nat, j: nat)
    requires i < j < |cards| && cards[i].front !in known && cards[j].front !in known
    ensures exists a, b :: (0 <= a < b < |Unlearned(cards, known)|
      && Unlearned(cards, known)[a] == cards[i] && Unlearned(cards, known)[b] == cards[j])
    decreases |cards|
  {
    var n := |cards| - 1;
    var u := Unlearned(cards[..n], known);
    var r := Unlearned(cards, known);
    assert r == u + (if cards[n].front in known then [] else [cards[n]]);
    if j < n {
      UnlearnedKeepsOrder(cards[..n], known, i, j);
      var a, b :| 0 <= a < b < |u| && u[a] == cards[..n][i] && u[b] == cards[..n][j];
      assert r[a] == cards[i] && r[b] == cards[j];
    } else {
      assert r == u + [cards[n]];
      UnlearnedExact(cards[..n], known);
      assert cards[..n][i] in u;
      var a :| 0 <= a < |u| && u[a] == cards[i];
      assert r[a] == cards[i] && r[|u|] == cards[j];
    }
  }

  /** `setLoading(true)` at the start of `loadCards`. */
  function StartLoading(d: Deck): (r: Deck)
    ensures r.loading && r.cards == d.cards && r.index == d.index
  {
    d.(loading := true)
  }

  /** The end of `loadCards`: with a user the learned fronts are filtered out,
      without one every generated card is kept; the deck restarts at the
      first card, face up, not finished and no longer loading. */
  function LoadCards(generated: seq<Flashcard>, user: Option<User>, learned: Learned): (r: Deck)
    ensures user.None? ==> r.cards == generated
    ensures user.Some? ==> r.cards == Unlearned(generated, LearnedBy(learned, user.value.id))
    ensures r.index == 0 && !r.flipped && !r.loading && !r.finished
    ensures Valid(r)
  {
    var shown := if user.Some? then Unlearned(generated, LearnedBy(learned, user.value.id)) else generated;
    Deck(shown, 0, false, false, false)
  }

  /** Clicking the card turns it over. */
  function Flip(d: Deck): (r: Deck)
    ensures r.flipped != d.flipped && r == d.(flipped := r.flipped)
  {
    d.(flipped := !d.flipped)
  }

  /** `handleNext`: a known card's front is added to the logged-in user's
      learned set; the card is turned face up; the index advances unless the
      card is the last, in which case the deck is finished. */
  function HandleNext(d: Deck, knewIt: bool, user: Option<User>, learned: Learned): (r: (Deck, Learned))
    ensures !r.0.flipped && r.0.cards == d.cards && r.0.loading == d.loading
    ensures d.index < |d.cards| - 1 ==> r.0.index == d.index + 1 && r.0.finished == d.finished
    ensures d.index >= |d.cards| - 1 ==> r.0.index == d.index && r.0.finished
    ensures knewIt && user.Some? && 0 <= d.index < |d.cards| ==>
      r.1 == learned[user.value.id := LearnedBy(learned, user.value.id) + {d.cards[d.index].front}]
    ensures !(knewIt && user.Some? && 0 <= d.index < |d.cards|) ==> r.1 == learned
  {
    var learned' := if knewIt && user.Some? && 0 <= d.index < |d.cards|
                    then learned[user.value.id := LearnedBy(learned, user.value.id) + {d.cards[d.index].front}]
                    else learned;
    var d1 := d.(flipped := false);
    var d2 := if d.index < |d.cards| - 1 then d1.(index := d.index + 1) else d1.(finished := true);
    (d2, learned')
  }

  /** Stepping keeps the index on a card. */
  lemma NextKeepsValid(d: Deck, knewIt: bool, user: Option<User>, learned: Learned)
    requires Valid(d)
    ensures Valid(HandleNext(d, knewIt, user, learned).0)
  {
  }

  /** Only the learned set of the stepping user changes, and it only grows. */
  lemma NextLearnedFrame(d: Deck, knewIt: bool, user: Option<User>, learned: Learned, other: string)
    ensures var l := HandleNext(d, knewIt, user, learned).1;
      && (user.None? || other != user.value.id ==> LearnedBy(l, other) == LearnedBy(learned, other))
      && (user.Some? ==> LearnedBy(learned, user.value.id) <= LearnedBy(l, user.value.id))
  {
  }

  /** A card stepped past with `knewIt` by a logged-in user is not shown on
      the next load, nor is any generated card with the same front. */
  lemma KnownCardDropped(d: Deck, user: User, learned: Learned, generated: seq<Flashcard>, k: nat)
    requires 0 <= d.index < |d.cards| && k < |generated| && generated[k].front == d.cards[d.index].front
    ensures var l := HandleNext(d, true, Some(user), learned).1;
      generated[k] !in LoadCards(generated, Some(user), l).cards
  {
    var l := HandleNext(d, true, Some(user), learned).1;
    UnlearnedExact(generated, LearnedBy(l, user.id));
  }

  /** `handleResetDeck`: with a user the learned set is emptied and the deck
      reloaded, which then holds every generated card; without a user
      nothing happens. */
  function HandleResetDeck(d: Deck, user: Option<User>, learned: Learned, generated: seq<Flashcard>): (r: (Deck, Learned))
    ensures user.None? ==> r == (d, learned)
    ensures user.Some? ==> LearnedBy(r.1, user.value.id) == {}
    ensures user.Some? ==> r.0 == LoadCards(generated, user, r.1)
  {
    if user.Some? then
      var l := learned[user.value.id := {}];
      (LoadCards(generated, user, l), l)
    else (d, learned)
  }

  /** After a reset the reloaded deck is the whole generated deck. */
  lemma ResetShowsAll(d: Deck, user: User, learned: Learned, generated: seq<Flashcard>)
    ensures HandleResetDeck(d, Some(user), learned, generated).0.cards == generated
  {
    UnlearnedShorter(generated, {});
  }

  // ---------------------------------------------------------------- screens

  /** What the component renders; `Card` holds the card at the index, or
      nothing where the source would read past the deck. */
  datatype Screen = Spinner | AllMastered | Done | Card(position: int, card: Option<Flashcard>)

  /** Loading wins over an empty deck, which wins over finished, which wins
      over the current card. */
  function View(d: Deck): (r: Screen)
    ensures r == Spinner <==> d.loading
    ensures r == AllMastered <==> !d.loading && |d.cards| == 0
    ensures r == Done <==> !d.loading && |d.cards| > 0 && d.finished
    ensures r.Card? <==> !d.loading && |d.cards| > 0 && !d.finished
  {
    if d.loading then Spinner
    else if |d.cards| == 0 then AllMastered
    else if d.finished then Done
    else Card(d.index, if 0 <= d.index < |d.cards| then Some(d.cards[d.index]) else None)
  }

  /** On a valid deck the card screen always has a card to show. */
  lemma CardShown(d: Deck)
    requires Valid(d) && View(d).Card?
    ensures View(d).card == Some(d.cards[d.index])
  {
  }
}
