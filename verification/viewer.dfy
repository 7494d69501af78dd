/** The client-side flashcard viewers: the manager embedded in a document
    page (`frontend/src/components/flashCards/FlashCardManaager.jsx`) and the
    stand-alone flashcard page (`frontend/src/pages/FlashCards/FlashCardPage.jsx`).
    Server calls are not modelled; each handler takes the outcome of its call
    (`ok`, or the fetched data as an `Option`) and yields the next view
    state together with the review request it sends, if any. */
module Viewer {

  import opened Base
  import opened Domain

  // ---------------------------------------------------------------------------
  // Cyclic navigation
  // ---------------------------------------------------------------------------

  /** `(i + 1) % n`; both operands are non-negative, so JavaScript's
      truncating `%` agrees with Dafny's. */
  function Next(i: nat, n: nat): (j: nat)
    requires n > 0
    ensures j < n
    ensures i + 1 < n ==> j == i + 1
    ensures i + 1 == n ==> j == 0
  {
    (i + 1) % n
  }

  /** `(i - 1 + n) % n`. */
  function Prev(i: nat, n: nat): (j: nat)
    requires n > 0
    ensures j < n
    ensures 0 < i <= n ==> j == i - 1
    ensures i == 0 ==> j == n - 1
  {
    (i - 1 + n) % n
  }

  /** Within range, each direction undoes the other. */
  lemma NextPrevInverse(i: nat, n: nat)
    requires i < n
    ensures Prev(Next(i, n), n) == i
    ensures Next(Prev(i, n), n) == i
  {
  }

  function NextTimes(i: nat, n: nat, k: nat): (j: nat)
    requires n > 0
  {
    if k == 0 then i else Next(NextTimes(i, n, k - 1), n)
  }

  /** Up to `n` forward moves from an index in range: the index advances by
      `k`, wrapping past the last card once. */
  lemma {:induction false} NextTimesWraps(i: nat, n: nat, k: nat)
    requires i < n && k <= n
    ensures NextTimes(i, n, k) == if i + k < n then i + k else i + k - n
  {
    if k > 0 {
      NextTimesWraps(i, n, k - 1);
    }
  }

  /** Moving forward through the whole deck returns to the starting card. */
  lemma FullCircle(i: nat, n: nat)
    requires i < n
    ensures NextTimes(i, n, n) == i
  {
    NextTimesWraps(i, n, n);
  }

  datatype Direction = Forward | Backward

  function Move(i: nat, n: nat, d: Direction): (j: nat)
    requires n > 0
    ensures j < n
  {
    match d
    case Forward => Next(i, n)
    case Backward => Prev(i, n)
  }

  function Opposite(d: Direction): Direction {
    match d
    case Forward => Backward
    case Backward => Forward
  }

  /** `reviewFlashcard(currentCard._id, index)`: the card shown and its index. */
  datatype ReviewRequest = ReviewRequest(cardId: Id, index: nat)

  /** `handleReview`: a request for the card at `index`, none when there is no
      such card. */
  function ReviewOf(cards: seq<Card>, index: nat): (r: Option<ReviewRequest>)
    ensures r.Some? <==> index < |cards|
    ensures r.Some? ==> r.value == ReviewRequest(cards[index].id, index)
  {
    if index < |cards| then Some(ReviewRequest(cards[index].id, index)) else None
  }

  // ---------------------------------------------------------------------------
  // Star toggling on the client copy
  // ---------------------------------------------------------------------------

  /** `cards.map(card => card._id === cardId ? {...card, isStarred: !card.isStarred} : card)`. */
  function FlipIn(cards: seq<Card>, cardId: Id): (after: seq<Card>)
    ensures |after| == |cards|
    ensures forall k :: 0 <= k < |cards| ==>
      after[k] == (if cards[k].id == cardId then cards[k].(isStarred := !cards[k].isStarred) else cards[k])
  {
    seq(|cards|, k requires 0 <= k < |cards| =>
      if cards[k].id == cardId then cards[k].(isStarred := !cards[k].isStarred) else cards[k])
  }

  /** Flipping the same card twice restores the list. */
  lemma FlipInTwice(cards: seq<Card>, cardId: Id)
    ensures FlipIn(FlipIn(cards, cardId), cardId) == cards
  {
    var twice := FlipIn(FlipIn(cards, cardId), cardId);
    assert forall k :: 0 <= k < |cards| ==> twice[k] == cards[k];
  }

  // ---------------------------------------------------------------------------
  // The manager component
  // ---------------------------------------------------------------------------

  /** The manager's state: the fetched sets, the selected set (`null` is
      `None`) and `currentCardIndex`. */
  datatype Manager = Manager(sets: seq<FlashcardSet>, selected: Option<FlashcardSet>, index: nat)

  /** The viewer shows a card whenever the selected set has one. */
  predicate ManagerShowsCard(m: Manager) {
    m.selected.Some? && |m.selected.value.cards| > 0 ==> m.index < |m.selected.value.cards|
  }

  /** Whether the previous/next buttons respond: a set is shown and it has
      more than one card. */
  predicate NavigationEnabled(m: Manager) {
    m.selected.Some? && |m.selected.value.cards| > 1
  }

  /** `handleNextCard` / `handlePrevCard` as a click: a disabled button does
      nothing; otherwise the card shown is reported reviewed and the index
      then moves. */
  function ManagerNavigate(m: Manager, d: Direction): (r: (Manager, Option<ReviewRequest>))
    ensures !NavigationEnabled(m) ==> r == (m, None)
    ensures NavigationEnabled(m) ==>
      && r.0.sets == m.sets && r.0.selected == m.selected
      && r.0.index < |m.selected.value.cards|
      && r.1 == ReviewOf(m.selected.value.cards, m.index)
    ensures ManagerShowsCard(m) ==> ManagerShowsCard(r.0)
  {
    if !NavigationEnabled(m) then (m, None)
    else
      var cards := m.selected.value.cards;
      (m.(index := Move(m.index, |cards|, d)), ReviewOf(cards, m.index))
  }

  /** With a card shown, each move asks for a review of that card, and the
      opposite move returns to it. */
  lemma ManagerNavigateRoundTrip(m: Manager, d: Direction)
    requires ManagerShowsCard(m) && NavigationEnabled(m)
    ensures ManagerNavigate(m, d).1 == Some(ReviewRequest(m.selected.value.cards[m.index].id, m.index))
    ensures ManagerNavigate(ManagerNavigate(m, d).0, Opposite(d)).0 == m
  {
    NextPrevInverse(m.index, |m.selected.value.cards|);
  }

  /** `handleSelectSet`: the chosen set is shown from its first card. */
  function SelectSet(m: Manager, s: FlashcardSet): (r: Manager)
    ensures r.sets == m.sets && r.selected == Some(s) && r.index == 0
    ensures ManagerShowsCard(r)
  {
    m.(selected := Some(s), index := 0)
  }

  function HasSetId(id: Id): FlashcardSet -> bool {
    (s: FlashcardSet) => s.id == id
  }

  /** The outer `flashcardSets.map`: the named card is flipped in every set
      carrying the selected set's id; other sets are kept. */
  function FlipInSets(sets: seq<FlashcardSet>, setId: Id, cardId: Id): (after: seq<FlashcardSet>)
    ensures |after| == |sets|
    ensures forall k :: 0 <= k < |sets| ==>
      after[k] == (if sets[k].id == setId then sets[k].(cards := FlipIn(sets[k].cards, cardId)) else sets[k])
  {
    seq(|sets|, k requires 0 <= k < |sets| =>
      if sets[k].id == setId then sets[k].(cards := FlipIn(sets[k].cards, cardId)) else sets[k])
  }

  lemma FlipInSetsTwice(sets: seq<FlashcardSet>, setId: Id, cardId: Id)
    ensures FlipInSets(FlipInSets(sets, setId, cardId), setId, cardId) == sets
  {
    var twice := FlipInSets(FlipInSets(sets, setId, cardId), setId, cardId);
    forall k | 0 <= k < |sets| ensures twice[k] == sets[k] {
      if sets[k].id == setId {
        FlipInTwice(sets[k].cards, cardId);
      }
    }
  }

  /** `handleToggleStar` once the server call has returned (`ok`) or thrown.
      The new selection is `updatedSets.find(...)`, which is `undefined` when
      the selected set is no longer among the fetched sets. Without a
      selection nothing changes: the `map` callback throws on a non-empty
      list, and an empty list leaves the selection empty. */
  function ManagerToggle(m: Manager, cardId: Id, ok: bool): (r: Manager)
    ensures !ok || m.selected.None? ==> r == m
    ensures ok && m.selected.Some? ==>
      var id := m.selected.value.id;
      && r.sets == FlipInSets(m.sets, id, cardId)
      && r.index == m.index
      && (r.selected.Some? <==> exists k :: 0 <= k < |m.sets| && m.sets[k].id == id)
      && (r.selected.Some? ==> r.selected.value.id == id && r.selected.value in r.sets)
  {
    if !ok || m.selected.None? then m
    else
      var id := m.selected.value.id;
      var updated := FlipInSets(m.sets, id, cardId);
      var found := FindIndex(updated, HasSetId(id));
      m.(sets := updated, selected := if found.Some? then Some(updated[found.value]) else None)
  }

  /** When the selected set is the first of its id among the fetched sets, the
      selection after a toggle is that set with the card flipped, so the
      viewer keeps its place. */
  lemma ManagerToggleUpdatesSelection(m: Manager, cardId: Id, i: nat)
    requires m.selected.Some? && FindIndex(m.sets, HasSetId(m.selected.value.id)) == Some(i)
    requires m.sets[i] == m.selected.value
    requires ManagerShowsCard(m)
    ensures var r := ManagerToggle(m, cardId, true);
      && r.selected == Some(m.selected.value.(cards := FlipIn(m.selected.value.cards, cardId)))
      && ManagerShowsCard(r)
  {
    var id := m.selected.value.id;
    var updated := FlipInSets(m.sets, id, cardId);
    assert updated[i] == m.selected.value.(cards := FlipIn(m.selected.value.cards, cardId));
    assert forall k :: 0 <= k < i ==> updated[k].id == m.sets[k].id;
    assert FindIndex(updated, HasSetId(id)) == Some(i);
  }

  /** A second successful toggle of the same card restores the fetched sets. */
  lemma ManagerToggleTwice(m: Manager, cardId: Id, i: nat)
    requires m.selected.Some? && FindIndex(m.sets, HasSetId(m.selected.value.id)) == Some(i)
    requires m.sets[i] == m.selected.value
    requires ManagerShowsCard(m)
    ensures ManagerToggle(ManagerToggle(m, cardId, true), cardId, true) == m
  {
    ManagerToggleUpdatesSelection(m, cardId, i);
    var once := ManagerToggle(m, cardId, true);
    FlipInSetsTwice(m.sets, m.selected.value.id, cardId);
    FlipInTwice(m.selected.value.cards, cardId);
    var id := m.selected.value.id;
    var twice := FlipInSets(once.sets, id, cardId);
    assert forall k :: 0 <= k < |m.sets| ==> (HasSetId(id)(twice[k]) <==> HasSetId(id)(m.sets[k]));
    assert FindIndex(twice, HasSetId(id)) == Some(i);
  }

  // ---------------------------------------------------------------------------
  // The flashcard page
  // ---------------------------------------------------------------------------

  /** The page's state: the first fetched set (`flashcardSets` holds it),
      its cards, and `currentCardIndex`. */
  datatype Page = Page(shown: Option<FlashcardSet>, cards: seq<Card>, index: nat)

  predicate PageShowsCard(p: Page) {
    |p.cards| > 0 ==> p.index < |p.cards|
  }

  /** `fetchFlashcards` as written: on success the page shows the first set
      (`response.data[0]`) and its cards, or no cards; the index is kept. A
      failed fetch changes nothing. */
  function PageLoad(p: Page, response: Option<seq<FlashcardSet>>): (r: Page)
    ensures response.None? ==> r == p
    ensures response.Some? ==>
      && r.index == p.index
      && (response.value == [] ==> r.shown.None? && r.cards == [])
      && (response.value != [] ==> r.shown == Some(response.value[0]) && r.cards == response.value[0].cards)
  {
    match response
    case None => p
    case Some(sets) =>
      if |sets| == 0 then p.(shown := None, cards := [])
      else p.(shown := Some(sets[0]), cards := sets[0].cards)
  }

  /** `fetchFlashcards` with the index reset to the first card of the newly
      loaded set, as selecting a set does in the manager. */
  function PageLoadReset(p: Page, response: Option<seq<FlashcardSet>>): (r: Page)
    ensures response.None? ==> r == p
    ensures response.Some? ==> r == PageLoad(p, response).(index := 0)
    ensures PageShowsCard(p) ==> PageShowsCard(r)
    ensures response.Some? ==> PageShowsCard(r)
  {
    match response
    case None => p
    case Some(_) => PageLoad(p, response).(index := 0)
  }

  /** What the page renders below its header. */
  datatype View =
    | Loading
    | EmptyDeck                                       // "No Flashcards Found"
    | ShowCard(card: Card, position: nat, total: nat)  // the card and "i / n"
    | MissingCard(position: nat, total: nat)          // `flashcards[i]` is undefined

  function Render(p: Page, loading: bool): (v: View)
    ensures loading <==> v == Loading
    ensures !loading ==> (v == EmptyDeck <==> p.cards == [])
    ensures v.ShowCard? ==> v.card in p.cards && v.position == p.index + 1 && v.total == |p.cards|
    ensures !loading && PageShowsCard(p) ==> !v.MissingCard?
  {
    if loading then Loading
    else if |p.cards| == 0 then EmptyDeck
    else if p.index < |p.cards| then ShowCard(p.cards[p.index], p.index + 1, |p.cards|)
    else MissingCard(p.index + 1, |p.cards|)
  }

  /** The index survives a reload, so a deck replaced by a shorter one (a
      set deleted, then regenerated with fewer cards) renders with no card
      under the counter. */
  lemma PageLoadCanLoseCard()
    ensures var c := Card(1, "q", "a", Medium, 0, false, None);
      var before := Page(Some(FlashcardSet(7, 1, 2, [c, c, c])), [c, c, c], 2);
      var after := PageLoad(before, Some([FlashcardSet(8, 1, 2, [c, c])]));
      && PageShowsCard(before)
      && Render(after, false) == MissingCard(3, 2)
  {
  }

  /** With the reset, every reload renders a card or the empty state. */
  lemma PageLoadResetShowsCard(p: Page, response: seq<FlashcardSet>)
    ensures Render(PageLoadReset(p, Some(response)), false).ShowCard?
      || Render(PageLoadReset(p, Some(response)), false) == EmptyDeck
  {
  }

  /** Page navigation: the buttons are disabled at one card or fewer;
      otherwise the card at the index (if any) is reported reviewed and the
      index moves. A move always brings the index back into range. */
  function PageNavigate(p: Page, d: Direction): (r: (Page, Option<ReviewRequest>))
    ensures |p.cards| <= 1 ==> r == (p, None)
    ensures |p.cards| > 1 ==>
      && r.0.shown == p.shown && r.0.cards == p.cards
      && r.1 == ReviewOf(p.cards, p.index)
    ensures PageShowsCard(r.0) || r.0 == p
  {
    if |p.cards| <= 1 then (p, None)
    else (p.(index := Move(p.index, |p.cards|, d)), ReviewOf(p.cards, p.index))
  }

  lemma PageNavigateRoundTrip(p: Page, d: Direction)
    requires PageShowsCard(p) && |p.cards| > 1
    ensures PageNavigate(p, d).1 == Some(ReviewRequest(p.cards[p.index].id, p.index))
    ensures PageNavigate(PageNavigate(p, d).0, Opposite(d)).0 == p
  {
    NextPrevInverse(p.index, |p.cards|);
  }

  /** The page's `handleToggleStar`: only the card list changes. */
  function PageToggle(p: Page, cardId: Id, ok: bool): (r: Page)
    ensures !ok ==> r == p
    ensures ok ==> r.shown == p.shown && r.index == p.index && r.cards == FlipIn(p.cards, cardId)
    ensures PageShowsCard(p) ==> PageShowsCard(r)
  {
    if ok then p.(cards := FlipIn(p.cards, cardId)) else p
  }

  lemma PageToggleTwice(p: Page, cardId: Id)
    ensures PageToggle(PageToggle(p, cardId, true), cardId, true) == p
  {
    FlipInTwice(p.cards, cardId);
  }
}
