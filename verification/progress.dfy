/** The dashboard overview of `backend/controllers/progressController.js`:
    counts over the user's documents, flashcard sets and quizzes, card
    statistics summed set by set, and the rounded mean score of the
    completed quizzes. */
module Progress {

  import opened Base
  import opened Domain

  datatype Overview = Overview(
    totalDocuments: nat,
    totalFlashCardsSets: nat,
    totalFlashCards: nat,
    reviewFlashCards: nat,
    starredFlashCards: nat,
    totalQuizzes: nat,
    completedQuizzes: nat,
    averageScore: int)

  function DocumentOf(userId: Id): Document -> bool {
    (d: Document) => d.userId == userId
  }

  function SetOf(userId: Id): FlashcardSet -> bool {
    (s: FlashcardSet) => s.userId == userId
  }

  function QuizOf(userId: Id): Quiz -> bool {
    (q: Quiz) => q.userId == userId
  }

  /** `{ userId, completedAt: { $ne: null } }`. */
  function CompletedQuizOf(userId: Id): Quiz -> bool {
    (q: Quiz) => q.userId == userId && q.completedAt.Some?
  }

  predicate IsReviewed(c: Card) {
    c.reviewCount > 0
  }

  predicate IsStarred(c: Card) {
    c.isStarred
  }

  /** Every card of every set, set after set. */
  function AllCards(sets: seq<FlashcardSet>): seq<Card> {
    if |sets| == 0 then [] else sets[0].cards + AllCards(sets[1..])
  }

  /** A set added at the end contributes its cards at the end. */
  lemma {:induction false} AllCardsSnoc(sets: seq<FlashcardSet>, s: FlashcardSet)
    ensures AllCards(sets + [s]) == AllCards(sets) + s.cards
    decreases |sets|
  {
    if |sets| > 0 {
      assert (sets + [s])[1..] == sets[1..] + [s];
      AllCardsSnoc(sets[1..], s);
      assert AllCards(sets + [s]) == sets[0].cards + (AllCards(sets[1..]) + s.cards);
    } else {
      assert AllCards([s]) == s.cards + AllCards([]);
      assert sets + [s] == [s];
    }
  }

  /** The three running totals of the `flashCardSets.forEach` loop. */
  datatype CardTotals = CardTotals(total: nat, reviewed: nat, starred: nat)

  /** One iteration: a set adds its length and its reviewed and starred counts. */
  function AddSet(t: CardTotals, s: FlashcardSet): CardTotals {
    CardTotals(t.total + |s.cards|, t.reviewed + Count(s.cards, IsReviewed), t.starred + Count(s.cards, IsStarred))
  }

  function Tally(t: CardTotals, sets: seq<FlashcardSet>): CardTotals
    decreases |sets|
  {
    if |sets| == 0 then t else Tally(AddSet(t, sets[0]), sets[1..])
  }

  /** Summing set by set is counting over all cards at once. */
  lemma {:induction false} TallyCountsAllCards(t: CardTotals, sets: seq<FlashcardSet>)
    ensures Tally(t, sets) == CardTotals(
      t.total + |AllCards(sets)|,
      t.reviewed + Count(AllCards(sets), IsReviewed),
      t.starred + Count(AllCards(sets), IsStarred))
    decreases |sets|
  {
    if |sets| > 0 {
      TallyCountsAllCards(AddSet(t, sets[0]), sets[1..]);
      CountAppend(sets[0].cards, AllCards(sets[1..]), IsReviewed);
      CountAppend(sets[0].cards, AllCards(sets[1..]), IsStarred);
    }
  }

  function Sum(xs: seq<int>): int {
    if |xs| == 0 then 0 else xs[0] + Sum(xs[1..])
  }

  function Scores(quizzes: seq<Quiz>): (scores: seq<int>)
    ensures |scores| == |quizzes|
    ensures forall k :: 0 <= k < |quizzes| ==> scores[k] == quizzes[k].score
  {
    seq(|quizzes|, k requires 0 <= k < |quizzes| => quizzes[k].score)
  }

  /** `averageScore`: 0 without scores, otherwise the mean rounded half up. */
  function Average(scores: seq<int>): (avg: int)
    ensures |scores| == 0 ==> avg == 0
    ensures |scores| > 0 ==> 2 * |scores| * avg <= 2 * Sum(scores) + |scores| < 2 * |scores| * (avg + 1)
  {
    if |scores| > 0 then RoundDiv(Sum(scores), |scores|) else 0
  }

  /** A sum of values in [lo, hi] lies between `lo` and `hi` times the count. */
  lemma {:induction false} SumBounds(xs: seq<int>, lo: int, hi: int)
    requires forall k :: 0 <= k < |xs| ==> lo <= xs[k] <= hi
    ensures lo * |xs| <= Sum(xs) <= hi * |xs|
    decreases |xs|
  {
    if |xs| > 0 {
      SumBounds(xs[1..], lo, hi);
      assert lo * |xs| == lo + lo * (|xs| - 1);
      assert hi * |xs| == hi + hi * (|xs| - 1);
    }
  }

  /** Arithmetic core of `AverageWithin`: a value rounded from `s / n` lies
      between `lo` and `hi` when `s` lies between `lo * n` and `hi * n`. */
  lemma RoundedBetween(n: nat, s: int, avg: int, lo: int, hi: int)
    requires n > 0
    requires 2 * n * avg <= 2 * s + n < 2 * n * (avg + 1)
    requires lo * n <= s <= hi * n
    ensures lo <= avg <= hi
  {
    var a, h, l := n * avg, n * hi, n * lo;
    assert 2 * n * avg == 2 * a && 2 * n * (avg + 1) == 2 * a + 2 * n;
    assert hi * n == h && lo * n == l;
    assert n * (hi + 1) == h + n && n * (avg + 1) == a + n;
    if avg > hi {
      MulLe(n, hi + 1, avg);
    }
    if avg < lo {
      MulLe(n, avg + 1, lo);
    }
  }

  /** The rounded mean lies between the smallest and largest bound of the
      values; in particular scores in [0, 100] average into [0, 100]. */
  lemma AverageWithin(scores: seq<int>, lo: int, hi: int)
    requires |scores| > 0
    requires forall k :: 0 <= k < |scores| ==> lo <= scores[k] <= hi
    ensures lo <= Average(scores) <= hi
  {
    SumBounds(scores, lo, hi);
    RoundedBetween(|scores|, Sum(scores), Average(scores), lo, hi);
  }

  /** `getDashboard` without the random study streak. */
  function Dashboard(docs: seq<Document>, sets: seq<FlashcardSet>, quizzes: seq<Quiz>, userId: Id): (o: Overview)
    ensures o.totalDocuments == Count(docs, DocumentOf(userId))
    ensures o.totalFlashCardsSets == Count(sets, SetOf(userId))
    ensures o.totalQuizzes == Count(quizzes, QuizOf(userId))
    ensures o.completedQuizzes == Count(quizzes, CompletedQuizOf(userId))
    ensures o.averageScore == Average(Scores(Filter(quizzes, CompletedQuizOf(userId))))
    ensures o.totalFlashCards == |AllCards(Filter(sets, SetOf(userId)))|
    ensures o.reviewFlashCards == Count(AllCards(Filter(sets, SetOf(userId))), IsReviewed)
    ensures o.starredFlashCards == Count(AllCards(Filter(sets, SetOf(userId))), IsStarred)
    ensures o.reviewFlashCards <= o.totalFlashCards && o.starredFlashCards <= o.totalFlashCards
    ensures o.completedQuizzes <= o.totalQuizzes
    ensures o.totalFlashCardsSets == 0 ==> o.totalFlashCards == 0
    ensures o.completedQuizzes == 0 ==> o.averageScore == 0
  {
    var mine := Filter(sets, SetOf(userId));
    var totals := Tally(CardTotals(0, 0, 0), mine);
    TallyCountsAllCards(CardTotals(0, 0, 0), mine);
    CountImplies(quizzes, CompletedQuizOf(userId), QuizOf(userId));
    var completed := Filter(quizzes, CompletedQuizOf(userId));
    Overview(
      Count(docs, DocumentOf(userId)),
      Count(sets, SetOf(userId)),
      totals.total,
      totals.reviewed,
      totals.starred,
      Count(quizzes, QuizOf(userId)),
      Count(quizzes, CompletedQuizOf(userId)),
      Average(Scores(completed)))
  }

  /** A new set of the user whose cards are all unreviewed and unstarred adds
      one set and its cards to the totals and leaves the other counts alone. */
  lemma DashboardAddSet(docs: seq<Document>, sets: seq<FlashcardSet>, quizzes: seq<Quiz>, userId: Id, s: FlashcardSet)
    requires s.userId == userId
    requires forall k :: 0 <= k < |s.cards| ==> s.cards[k].reviewCount == 0 && !s.cards[k].isStarred
    ensures var before, after := Dashboard(docs, sets, quizzes, userId), Dashboard(docs, sets + [s], quizzes, userId);
      && after.totalFlashCardsSets == before.totalFlashCardsSets + 1
      && after.totalFlashCards == before.totalFlashCards + |s.cards|
      && after.reviewFlashCards == before.reviewFlashCards
      && after.starredFlashCards == before.starredFlashCards
      && after.totalDocuments == before.totalDocuments
      && after.totalQuizzes == before.totalQuizzes
      && after.completedQuizzes == before.completedQuizzes
      && after.averageScore == before.averageScore
  {
    var mine := Filter(sets, SetOf(userId));
    CountSnoc(sets, s, SetOf(userId));
    FilterSnoc(sets, s, SetOf(userId));
    AllCardsSnoc(mine, s);
    CountAppend(AllCards(mine), s.cards, IsReviewed);
    CountAppend(AllCards(mine), s.cards, IsStarred);
    assert Count(s.cards, IsReviewed) == 0 && Count(s.cards, IsStarred) == 0;
  }

  /** With every completed score a percentage, the average is one too. */
  lemma AverageIsPercentage(docs: seq<Document>, sets: seq<FlashcardSet>, quizzes: seq<Quiz>, userId: Id)
    requires forall k :: 0 <= k < |quizzes| && CompletedQuizOf(userId)(quizzes[k]) ==> 0 <= quizzes[k].score <= 100
    ensures 0 <= Dashboard(docs, sets, quizzes, userId).averageScore <= 100
  {
    var completed := Filter(quizzes, CompletedQuizOf(userId));
    var scores := Scores(completed);
    if |scores| > 0 {
      forall k | 0 <= k < |scores| ensures 0 <= scores[k] <= 100 {
        assert completed[k] in quizzes;
      }
      AverageWithin(scores, 0, 100);
    }
  }
}
