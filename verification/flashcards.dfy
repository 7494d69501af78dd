/** Card-level mutations of stored flashcard sets
    (`backend/controllers/flashCardController.js`): marking a card reviewed,
    toggling its star, and deleting a whole set. The store is the sequence of
    all sets; a lookup is the first match in that order. */
module Flashcards {

  import opened Base
  import opened Domain

  datatype FlashcardError = CardNotFound | CardNotInSet | SetNotFound

  function IsCard(cardId: Id): Card -> bool {
    (c: Card) => c.id == cardId
  }

  /** The set `findOne({"cards._id": cardId, userId})` matches. */
  function HoldsCard(cardId: Id, userId: Id): FlashcardSet -> bool {
    (s: FlashcardSet) => s.userId == userId && FindIndex(s.cards, IsCard(cardId)).Some?
  }

  /** The position of the card a request names: the first set of the user
      holding it, then the first card with that id inside it. */
  function Locate(sets: seq<FlashcardSet>, userId: Id, cardId: Id): (r: Option<(nat, nat)>)
    ensures r.None? <==>
      forall i, j :: 0 <= i < |sets| && 0 <= j < |sets[i].cards| && sets[i].userId == userId ==> sets[i].cards[j].id != cardId
    ensures r.Some? ==>
      var (i, j) := r.value;
      && i < |sets| && sets[i].userId == userId
      && j < |sets[i].cards| && sets[i].cards[j].id == cardId
      && (forall j' :: 0 <= j' < j ==> sets[i].cards[j'].id != cardId)
      && (forall i' :: 0 <= i' < i ==> !HoldsCard(cardId, userId)(sets[i']))
  {
    match FindIndex(sets, HoldsCard(cardId, userId))
    case None => None
    case Some(i) => Some((i, FindIndex(sets[i].cards, IsCard(cardId)).value))
  }

  /** `after` differs from `sets` at most in card `j` of set `i`. */
  ghost predicate OnlyCardChanged(sets: seq<FlashcardSet>, after: seq<FlashcardSet>, i: nat, j: nat) {
    && |after| == |sets| && i < |sets| && j < |sets[i].cards|
    && (forall k :: 0 <= k < |sets| && k != i ==> after[k] == sets[k])
    && after[i] == sets[i].(cards := after[i].cards)
    && |after[i].cards| == |sets[i].cards|
    && (forall m :: 0 <= m < |sets[i].cards| && m != j ==> after[i].cards[m] == sets[i].cards[m])
  }

  /** Replaces card `j` of set `i` by `f` applied to it. */
  function UpdateCard(sets: seq<FlashcardSet>, i: nat, j: nat, f: Card -> Card): (after: seq<FlashcardSet>)
    requires i < |sets| && j < |sets[i].cards|
    ensures OnlyCardChanged(sets, after, i, j)
    ensures after[i].cards[j] == f(sets[i].cards[j])
  {
    var s := sets[i];
    sets[i := s.(cards := s.cards[j := f(s.cards[j])])]
  }

  function MarkReviewed(now: Time): Card -> Card {
    (c: Card) => c.(reviewCount := c.reviewCount + 1, lastReviewed := Some(now))
  }

  function FlipStar(c: Card): Card {
    c.(isStarred := !c.isStarred)
  }

  /** `reviewFlashcard`: one more review and the review time on the named card. */
  function Review(sets: seq<FlashcardSet>, userId: Id, cardId: Id, now: Time): (r: Result<seq<FlashcardSet>, FlashcardError>)
    ensures r.Err? <==> Locate(sets, userId, cardId).None?
    ensures r.Err? ==> r.error == CardNotFound
    ensures r.Ok? ==>
      var (i, j) := Locate(sets, userId, cardId).value;
      var card := sets[i].cards[j];
      && OnlyCardChanged(sets, r.value, i, j)
      && r.value[i].cards[j].reviewCount == card.reviewCount + 1
      && r.value[i].cards[j] == card.(reviewCount := r.value[i].cards[j].reviewCount, lastReviewed := Some(now))
  {
    match FindIndex(sets, HoldsCard(cardId, userId))
    case None => Err(CardNotFound)
    case Some(i) =>
      match FindIndex(sets[i].cards, IsCard(cardId))
      case None => Err(CardNotInSet)
      case Some(j) => Ok(UpdateCard(sets, i, j, MarkReviewed(now)))
  }

  /** `toggleStarFlashcard`: the named card's star is negated. */
  function ToggleStar(sets: seq<FlashcardSet>, userId: Id, cardId: Id): (r: Result<seq<FlashcardSet>, FlashcardError>)
    ensures r.Err? <==> Locate(sets, userId, cardId).None?
    ensures r.Err? ==> r.error == CardNotFound
    ensures r.Ok? ==>
      var (i, j) := Locate(sets, userId, cardId).value;
      var card := sets[i].cards[j];
      && OnlyCardChanged(sets, r.value, i, j)
      && r.value[i].cards[j].isStarred == !card.isStarred
      && r.value[i].cards[j] == card.(isStarred := r.value[i].cards[j].isStarred)
  {
    match FindIndex(sets, HoldsCard(cardId, userId))
    case None => Err(CardNotFound)
    case Some(i) =>
      match FindIndex(sets[i].cards, IsCard(cardId))
      case None => Err(CardNotInSet)
      case Some(j) => Ok(UpdateCard(sets, i, j, FlipStar))
  }

  /** Changing a card without changing its id leaves the lookup where it was. */
  lemma LocateStable(sets: seq<FlashcardSet>, after: seq<FlashcardSet>, userId: Id, cardId: Id, i: nat, j: nat)
    requires Locate(sets, userId, cardId) == Some((i, j))
    requires OnlyCardChanged(sets, after, i, j) && after[i].cards[j].id == cardId
    ensures Locate(after, userId, cardId) == Some((i, j))
  {
    assert after[i].userId == userId;
    assert forall m :: 0 <= m < j ==> after[i].cards[m] == sets[i].cards[m];
    assert FindIndex(after[i].cards, IsCard(cardId)) == Some(j);
    assert HoldsCard(cardId, userId)(after[i]);
    assert forall k :: 0 <= k < i ==> after[k] == sets[k];
  }

  /** Toggling the same card twice restores the store. */
  lemma ToggleTwice(sets: seq<FlashcardSet>, userId: Id, cardId: Id)
    requires ToggleStar(sets, userId, cardId).Ok?
    ensures ToggleStar(ToggleStar(sets, userId, cardId).value, userId, cardId) == Ok(sets)
  {
    var (i, j) := Locate(sets, userId, cardId).value;
    var once := ToggleStar(sets, userId, cardId).value;
    LocateStable(sets, once, userId, cardId, i, j);
    var twice := ToggleStar(once, userId, cardId).value;
    assert twice[i].cards == sets[i].cards;
    assert twice == sets;
  }

  /** Two reviews of a card add two to its count. */
  lemma ReviewTwice(sets: seq<FlashcardSet>, userId: Id, cardId: Id, t1: Time, t2: Time)
    requires Review(sets, userId, cardId, t1).Ok?
    ensures var once := Review(sets, userId, cardId, t1).value;
      && Review(once, userId, cardId, t2).Ok?
      && Locate(once, userId, cardId) == Locate(sets, userId, cardId)
    ensures var (i, j) := Locate(sets, userId, cardId).value;
      var twice := Review(Review(sets, userId, cardId, t1).value, userId, cardId, t2).value;
      twice[i].cards[j] == sets[i].cards[j].(reviewCount := sets[i].cards[j].reviewCount + 2, lastReviewed := Some(t2))
  {
    var (i, j) := Locate(sets, userId, cardId).value;
    var once := Review(sets, userId, cardId, t1).value;
    LocateStable(sets, once, userId, cardId, i, j);
  }

  function OwnedSet(setId: Id, userId: Id): FlashcardSet -> bool {
    (s: FlashcardSet) => s.id == setId && s.userId == userId
  }

  /** `deleteFlashcardSet`: removes the user's set with that id. */
  function DeleteSet(sets: seq<FlashcardSet>, userId: Id, setId: Id): (r: Result<seq<FlashcardSet>, FlashcardError>)
    ensures r.Err? <==> forall k :: 0 <= k < |sets| ==> !OwnedSet(setId, userId)(sets[k])
    ensures r.Err? ==> r.error == SetNotFound
    ensures r.Ok? ==>
      exists i :: 0 <= i < |sets| && OwnedSet(setId, userId)(sets[i]) && r.value == sets[..i] + sets[i + 1..]
  {
    match FindIndex(sets, OwnedSet(setId, userId))
    case None => Err(SetNotFound)
    case Some(i) => Ok(sets[..i] + sets[i + 1..])
  }

  /** A set appended under a new id is the one deleted by that id, which
      restores the store. */
  lemma DeleteAppended(sets: seq<FlashcardSet>, s: FlashcardSet, userId: Id)
    requires s.userId == userId
    requires forall k :: 0 <= k < |sets| ==> sets[k].id != s.id
    ensures DeleteSet(sets + [s], userId, s.id) == Ok(sets)
  {
    var after := sets + [s];
    assert forall k :: 0 <= k < |sets| ==> after[k] == sets[k];
    assert OwnedSet(s.id, userId)(after[|sets|]);
    assert FindIndex(after, OwnedSet(s.id, userId)) == Some(|sets|);
    assert after[..|sets|] + after[|sets| + 1..] == sets;
  }

  /** With distinct set ids, deleting removes exactly the named set: it is gone,
      every other set remains in order, and the store shrinks by one. */
  lemma DeleteRemovesOnlyTarget(sets: seq<FlashcardSet>, userId: Id, setId: Id)
    requires Distinct(seq(|sets|, k requires 0 <= k < |sets| => sets[k].id))
    requires DeleteSet(sets, userId, setId).Ok?
    ensures var after := DeleteSet(sets, userId, setId).value;
      && |after| == |sets| - 1
      && (forall k :: 0 <= k < |after| ==> after[k].id != setId)
      && (forall k :: 0 <= k < |sets| && sets[k].id != setId ==> sets[k] in after)
  {
    var i := FindIndex(sets, OwnedSet(setId, userId)).value;
    var ids := seq(|sets|, k requires 0 <= k < |sets| => sets[k].id);
    var after := sets[..i] + sets[i + 1..];
    forall k | 0 <= k < |after| ensures after[k].id != setId {
      if k < i {
        assert after[k] == sets[k] && ids[k] == sets[k].id && ids[i] == setId;
      } else {
        assert after[k] == sets[k + 1] && ids[k + 1] == sets[k + 1].id && ids[i] == setId;
      }
    }
    forall k | 0 <= k < |sets| && sets[k].id != setId ensures sets[k] in after {
      if k < i {
        assert after[k] == sets[k];
      } else {
        assert k != i;
        assert after[k - 1] == sets[k];
      }
    }
  }
}
