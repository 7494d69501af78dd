/** The generation endpoints of `backend/controllers/aiController.js`. Each
    looks up a ready document of the user, asks the generation engine, and
    stores or returns the result. The engine and the chunk ranker are
    function parameters: `respond(text, n)` is the engine's raw answer to the
    prompt built from `text` and `n` (`None` when the call fails), and
    `rank(chunks, query, k)` is the ranker's choice of at most `k` chunks. */
module Ai {

  import opened Base
  import opened Text
  import opened Domain
  import opened GeminiParser
  import Quizzes
  import Flashcards
  import Progress

  datatype AiError =
    | MissingField          // 404 "Please Provide ..."
    | DocumentUnavailable   // 404 "Document not found" / "not Found or not ready"
    | EngineFailed          // the engine call threw
    | ConstAssignment       // the TypeError of assigning to a `const`
    | NoChatHistory         // 404 of `getChatHistory`

  /** Chunks requested from the ranker by chat and explain. */
  const RankedChunks: nat := 3
  const ContextSeparator: string := "\n\n"

  function ReadyOwned(docId: Id, userId: Id): Document -> bool {
    (d: Document) => d.id == docId && d.userId == userId && d.status == Ready
  }

  /** The shared guard: a document id must be given, and only a document of
      the user in the `ready` state is used. */
  function RequireReadyDocument(docs: seq<Document>, userId: Id, documentId: Option<Id>): (r: Result<Document, AiError>)
    ensures documentId.None? <==> r == Err(MissingField)
    ensures documentId.Some? ==>
      (r == Err(DocumentUnavailable) <==> forall k :: 0 <= k < |docs| ==> !ReadyOwned(documentId.value, userId)(docs[k]))
    ensures r.Ok? ==> r.value in docs && r.value.id == documentId.value && r.value.userId == userId && r.value.status == Ready
  {
    match documentId
    case None => Err(MissingField)
    case Some(id) =>
      match FindIndex(docs, ReadyOwned(id, userId))
      case None => Err(DocumentUnavailable)
      case Some(i) => Ok(docs[i])
  }

  /** A stored card made from a generated one: never reviewed, not starred. */
  function NewCard(id: Id, g: GeneratedCard): Card {
    Card(id, g.question, g.answer, g.difficulty, 0, false, None)
  }

  /** The stored cards of a generated list: same texts and difficulties, in
      the same order, each never reviewed and not starred. */
  function NewCards(generated: seq<GeneratedCard>, cardId: nat -> Id): (cards: seq<Card>)
    ensures |cards| == |generated|
    ensures forall k :: 0 <= k < |cards| ==>
      && cards[k].id == cardId(k)
      && cards[k].question == generated[k].question
      && cards[k].answer == generated[k].answer
      && cards[k].difficulty == generated[k].difficulty
      && cards[k].reviewCount == 0 && !cards[k].isStarred && cards[k].lastReviewed.None?
  {
    seq(|generated|, k requires 0 <= k < |generated| => NewCard(cardId(k), generated[k]))
  }

  /** `generateFlashCards`: the parsed cards of the engine's answer become a
      new set of the user for that document. `count` is the value `parseInt`
      produced; `cardId(k)` is the identifier given to the k-th card. */
  function GenerateFlashCards(docs: seq<Document>, sets: seq<FlashcardSet>, userId: Id, documentId: Option<Id>,
                              count: int, respond: (string, int) -> Option<string>, setId: Id, cardId: nat -> Id)
    : (r: Result<(seq<FlashcardSet>, FlashcardSet), AiError>)
    ensures r.Err? ==> r.error != ConstAssignment && r.error != NoChatHistory
    ensures RequireReadyDocument(docs, userId, documentId).Err? ==> r == Err(RequireReadyDocument(docs, userId, documentId).error)
    ensures r.Ok? <==> RequireReadyDocument(docs, userId, documentId).Ok? && respond(RequireReadyDocument(docs, userId, documentId).value.extractedText, count).Some?
    ensures r.Err? && r.error == EngineFailed <==>
      RequireReadyDocument(docs, userId, documentId).Ok?
        && respond(RequireReadyDocument(docs, userId, documentId).value.extractedText, count).None?
    ensures r.Ok? ==>
      && RequireReadyDocument(docs, userId, documentId).Ok?
      && var doc := RequireReadyDocument(docs, userId, documentId).value;
      && respond(doc.extractedText, count).Some?
      && var generated := ParseFlashcards(respond(doc.extractedText, count).value, count);
      && r.value.0 == sets + [r.value.1]
      && r.value.1 == FlashcardSet(setId, userId, doc.id, NewCards(generated, cardId))
      && (count >= 0 ==> |r.value.1.cards| <= count)
  {
    match RequireReadyDocument(docs, userId, documentId)
    case Err(e) => Err(e)
    case Ok(doc) =>
      match respond(doc.extractedText, count)
      case None => Err(EngineFailed)
      case Some(text) =>
        var generated := ParseFlashcards(text, count);
        var made := FlashcardSet(setId, userId, doc.id, NewCards(generated, cardId));
        Ok((sets + [made], made))
  }

  /** A generated set shows up on the dashboard: one more set, its cards added
      to the total, and the reviewed and starred counts unchanged, since every
      new card is unreviewed and unstarred. */
  lemma GeneratedSetJoinsDashboard(docs: seq<Document>, sets: seq<FlashcardSet>, quizzes: seq<Quiz>, userId: Id,
                                   documentId: Option<Id>, count: int, respond: (string, int) -> Option<string>,
                                   setId: Id, cardId: nat -> Id)
    requires GenerateFlashCards(docs, sets, userId, documentId, count, respond, setId, cardId).Ok?
    ensures var (after, made) := GenerateFlashCards(docs, sets, userId, documentId, count, respond, setId, cardId).value;
      var before, now := Progress.Dashboard(docs, sets, quizzes, userId), Progress.Dashboard(docs, after, quizzes, userId);
      && now.totalFlashCardsSets == before.totalFlashCardsSets + 1
      && now.totalFlashCards == before.totalFlashCards + |made.cards|
      && now.reviewFlashCards == before.reviewFlashCards
      && now.starredFlashCards == before.starredFlashCards
  {
    var (after, made) := GenerateFlashCards(docs, sets, userId, documentId, count, respond, setId, cardId).value;
    assert after == sets + [made] && made.userId == userId;
    assert forall k :: 0 <= k < |made.cards| ==> made.cards[k].reviewCount == 0 && !made.cards[k].isStarred;
    Progress.DashboardAddSet(docs, sets, quizzes, userId, made);
  }

  /** Deleting a freshly generated set by its id gives the earlier store back. */
  lemma GeneratedSetDeletes(docs: seq<Document>, sets: seq<FlashcardSet>, userId: Id, documentId: Option<Id>,
                            count: int, respond: (string, int) -> Option<string>, setId: Id, cardId: nat -> Id)
    requires GenerateFlashCards(docs, sets, userId, documentId, count, respond, setId, cardId).Ok?
    requires forall k :: 0 <= k < |sets| ==> sets[k].id != setId
    ensures Flashcards.DeleteSet(GenerateFlashCards(docs, sets, userId, documentId, count, respond, setId, cardId).value.0,
                                 userId, setId) == Ok(sets)
  {
    var (after, made) := GenerateFlashCards(docs, sets, userId, documentId, count, respond, setId, cardId).value;
    assert after == sets + [made] && made.id == setId && made.userId == userId;
    Flashcards.DeleteAppended(sets, made, userId);
  }

  /** `title || `${document.title} - Quiz``. */
  function QuizTitle(title: Option<string>, documentTitle: string): (t: string)
    ensures Truthy(title) ==> t == title.value
    ensures !Truthy(title) ==> t == documentTitle + " - Quiz"
  {
    if Truthy(title) then title.value else documentTitle + " - Quiz"
  }

  /** `generateQuiz`: the parsed questions of the engine's answer become a new,
      unsubmitted quiz with score 0. */
  function GenerateQuiz(docs: seq<Document>, quizzes: seq<Quiz>, userId: Id, documentId: Option<Id>,
                        numQuestions: int, title: Option<string>, respond: (string, int) -> Option<string>, quizId: Id)
    : (r: Result<(seq<Quiz>, Quiz), AiError>)
    ensures r.Err? ==> r.error != ConstAssignment && r.error != NoChatHistory
    ensures RequireReadyDocument(docs, userId, documentId).Err? ==> r == Err(RequireReadyDocument(docs, userId, documentId).error)
    ensures r.Ok? <==> RequireReadyDocument(docs, userId, documentId).Ok? && respond(RequireReadyDocument(docs, userId, documentId).value.extractedText, numQuestions).Some?
    ensures r.Err? && r.error == EngineFailed <==>
      RequireReadyDocument(docs, userId, documentId).Ok?
        && respond(RequireReadyDocument(docs, userId, documentId).value.extractedText, numQuestions).None?
    ensures r.Ok? ==>
      && RequireReadyDocument(docs, userId, documentId).Ok?
      && var doc := RequireReadyDocument(docs, userId, documentId).value;
      && respond(doc.extractedText, numQuestions).Some?
      && var questions := ParseQuiz(respond(doc.extractedText, numQuestions).value, numQuestions);
      && var (after, quiz) := r.value;
      && after == quizzes + [quiz]
      && quiz.id == quizId && quiz.userId == userId && quiz.documentId == doc.id
      && quiz.title == QuizTitle(title, doc.title)
      && quiz.questions == questions
      && quiz.totalQuestions == |quiz.questions|
      && (numQuestions >= 0 ==> quiz.totalQuestions <= numQuestions)
      && quiz.userAnswers == [] && quiz.score == 0 && quiz.completedAt.None?
  {
    match RequireReadyDocument(docs, userId, documentId)
    case Err(e) => Err(e)
    case Ok(doc) =>
      match respond(doc.extractedText, numQuestions)
      case None => Err(EngineFailed)
      case Some(text) =>
        var questions := ParseQuiz(text, numQuestions);
        var quiz := Quiz(quizId, userId, doc.id, QuizTitle(title, doc.title), questions, |questions|, [], 0, None);
        Ok((quizzes + [quiz], quiz))
  }

  /** A generated quiz with at least one question accepts its first
      submission, and distinct answers score a percentage. */
  lemma GeneratedQuizScoresPercentage(docs: seq<Document>, quizzes: seq<Quiz>, userId: Id, documentId: Option<Id>,
                                      numQuestions: int, title: Option<string>, respond: (string, int) -> Option<string>,
                                      quizId: Id, answers: seq<Quizzes.Answer>, now: Time)
    requires GenerateQuiz(docs, quizzes, userId, documentId, numQuestions, title, respond, quizId).Ok?
    requires |GenerateQuiz(docs, quizzes, userId, documentId, numQuestions, title, respond, quizId).value.1.questions| > 0
    requires forall i, j :: 0 <= i < j < |answers| ==> answers[i].questionIndex != answers[j].questionIndex
    ensures var quiz := GenerateQuiz(docs, quizzes, userId, documentId, numQuestions, title, respond, quizId).value.1;
      && Quizzes.Submit(quiz, answers, now).Ok?
      && 0 <= Quizzes.Submit(quiz, answers, now).value.quiz.score <= 100
  {
    var quiz := GenerateQuiz(docs, quizzes, userId, documentId, numQuestions, title, respond, quizId).value.1;
    Quizzes.ScoreBounds(quiz, answers, now);
  }

  /** `generateSummary`: the engine's summary of a ready document, stored nowhere. */
  datatype Summary = Summary(documentId: Id, title: string, summary: string)

  function GenerateSummary(docs: seq<Document>, userId: Id, documentId: Option<Id>, summarize: string -> Option<string>)
    : (r: Result<Summary, AiError>)
    ensures r.Err? ==> r.error == MissingField || r.error == DocumentUnavailable || r.error == EngineFailed
    ensures RequireReadyDocument(docs, userId, documentId).Err? ==> r == Err(RequireReadyDocument(docs, userId, documentId).error)
    ensures r.Ok? <==> RequireReadyDocument(docs, userId, documentId).Ok? && summarize(RequireReadyDocument(docs, userId, documentId).value.extractedText).Some?
    ensures r.Ok? ==>
      && RequireReadyDocument(docs, userId, documentId).Ok?
      && var doc := RequireReadyDocument(docs, userId, documentId).value;
      && summarize(doc.extractedText).Some?
      && r.value == Summary(doc.id, doc.title, summarize(doc.extractedText).value)
  {
    match RequireReadyDocument(docs, userId, documentId)
    case Err(e) => Err(e)
    case Ok(doc) =>
      match summarize(doc.extractedText)
      case None => Err(EngineFailed)
      case Some(s) => Ok(Summary(doc.id, doc.title, s))
  }

  // ---------------------------------------------------------------------------
  // Chat (aiController.js lines 154-231) and explain (lines 234-274)
  // ---------------------------------------------------------------------------

  /** The provenance returned to the caller: each chunk's index, in rank order. */
  function ChunkIndices(chunks: seq<Chunk>): (indices: seq<nat>)
    ensures |indices| == |chunks|
    ensures forall k :: 0 <= k < |chunks| ==> indices[k] == chunks[k].chunkIndex
  {
    seq(|chunks|, k requires 0 <= k < |chunks| => chunks[k].chunkIndex)
  }

  function Contents(chunks: seq<Chunk>): (contents: seq<string>)
    ensures |contents| == |chunks|
    ensures forall k :: 0 <= k < |chunks| ==> contents[k] == chunks[k].content
  {
    seq(|chunks|, k requires 0 <= k < |chunks| => chunks[k].content)
  }

  function HistoryOf(userId: Id, docId: Id): ChatHistory -> bool {
    (h: ChatHistory) => h.userId == userId && h.documentId == docId
  }

  datatype ChatReply = ChatReply(question: string, answer: string, relevantChunks: seq<nat>, chatHistoryId: Id)

  /** The two messages of one turn: the question without provenance, then the
      answer with the indices of the chunks it was given. */
  function Turn(question: string, answer: string, indices: seq<nat>, now: Time): seq<Message> {
    [Message(UserRole, question, now, []), Message(AssistantRole, answer, now, indices)]
  }

  /** Appends a turn to history `i`. */
  function AppendTurn(histories: seq<ChatHistory>, i: nat, turn: seq<Message>): (after: seq<ChatHistory>)
    requires i < |histories|
    ensures |after| == |histories|
    ensures after[i] == histories[i].(messages := histories[i].messages + turn)
    ensures forall k :: 0 <= k < |histories| && k != i ==> after[k] == histories[k]
  {
    histories[i := histories[i].(messages := histories[i].messages + turn)]
  }

  /** What `chat` does once the inputs are checked and the history is found. */
  function ChatWithHistory(histories: seq<ChatHistory>, i: nat, question: string, ranked: seq<Chunk>,
                           answer: Option<string>, now: Time): (r: (seq<ChatHistory>, Result<ChatReply, AiError>))
    requires i < |histories|
  {
    match answer
    case None => (histories, Err(EngineFailed))
    case Some(a) =>
      var indices := ChunkIndices(ranked);
      (AppendTurn(histories, i, Turn(question, a, indices, now)), Ok(ChatReply(question, a, indices, histories[i].id)))
  }

  /** `chat` as written: when the user has no history for the document, the
      history is created and the assignment to the `const` binding then
      throws, so the turn is refused and not recorded. The store is returned
      on every path, since that path changes it. `ask(question, chunks)` is
      the engine's answer. */
  function ChatAsWritten(docs: seq<Document>, histories: seq<ChatHistory>, userId: Id, documentId: Option<Id>,
                         question: Option<string>, rank: (seq<Chunk>, string, nat) -> seq<Chunk>,
                         ask: (string, seq<Chunk>) -> Option<string>, now: Time, newHistoryId: Id)
    : (r: (seq<ChatHistory>, Result<ChatReply, AiError>))
    ensures documentId.None? || !Truthy(question) ==> r == (histories, Err(MissingField))
    ensures documentId.Some? && Truthy(question) && RequireReadyDocument(docs, userId, documentId).Ok? ==>
      var doc := RequireReadyDocument(docs, userId, documentId).value;
      && (FindIndex(histories, HistoryOf(userId, doc.id)).None? ==>
            r == (histories + [ChatHistory(newHistoryId, userId, doc.id, [])], Err(ConstAssignment)))
      && (FindIndex(histories, HistoryOf(userId, doc.id)).Some? ==>
            r == Chat(docs, histories, userId, documentId, question, rank, ask, now, newHistoryId))
    ensures !(documentId.Some? && Truthy(question) && RequireReadyDocument(docs, userId, documentId).Ok?) ==>
      r == Chat(docs, histories, userId, documentId, question, rank, ask, now, newHistoryId)
  {
    if documentId.None? || !Truthy(question) then (histories, Err(MissingField))
    else
      match RequireReadyDocument(docs, userId, documentId)
      case Err(e) => (histories, Err(e))
      case Ok(doc) =>
        var q := question.value;
        var ranked := rank(doc.chunks, q, RankedChunks);
        match FindIndex(histories, HistoryOf(userId, doc.id))
        case None => (histories + [ChatHistory(newHistoryId, userId, doc.id, [])], Err(ConstAssignment))
        case Some(i) => ChatWithHistory(histories, i, q, ranked, ask(q, ranked), now)
  }

  /** `chat` with the history created when missing and the turn then
      appended to it, which is what the get-or-create step intends. */
  function Chat(docs: seq<Document>, histories: seq<ChatHistory>, userId: Id, documentId: Option<Id>,
                question: Option<string>, rank: (seq<Chunk>, string, nat) -> seq<Chunk>,
                ask: (string, seq<Chunk>) -> Option<string>, now: Time, newHistoryId: Id)
    : (r: (seq<ChatHistory>, Result<ChatReply, AiError>))
    ensures documentId.None? || !Truthy(question) ==> r == (histories, Err(MissingField))
    ensures documentId.Some? && Truthy(question) && RequireReadyDocument(docs, userId, documentId).Err? ==> r == (histories, Err(RequireReadyDocument(docs, userId, documentId).error))
    ensures r.1.Ok? <==>
      && documentId.Some? && Truthy(question) && RequireReadyDocument(docs, userId, documentId).Ok?
      && ask(question.value, rank(RequireReadyDocument(docs, userId, documentId).value.chunks, question.value, RankedChunks)).Some?
    ensures r.1.Err? ==> r.1.error != ConstAssignment
    ensures documentId.Some? && Truthy(question) && RequireReadyDocument(docs, userId, documentId).Ok? ==>
      var doc := RequireReadyDocument(docs, userId, documentId).value;
      ask(question.value, rank(doc.chunks, question.value, RankedChunks)).None? ==>
        && r.1 == Err(EngineFailed)
        && r.0 == histories + if forall k :: 0 <= k < |histories| ==> !HistoryOf(userId, doc.id)(histories[k])
                              then [ChatHistory(newHistoryId, userId, doc.id, [])] else []
    ensures r.1.Ok? ==>
      && Truthy(question)
      && RequireReadyDocument(docs, userId, documentId).Ok?
      && var doc := RequireReadyDocument(docs, userId, documentId).value;
      && var ranked := rank(doc.chunks, question.value, RankedChunks);
      && ask(question.value, ranked).Some?
      && r.1.value.question == question.value
      && r.1.value.answer == ask(question.value, ranked).value
      && r.1.value.relevantChunks == ChunkIndices(ranked)
      && r.1.value.chatHistoryId ==
           match FindIndex(histories, HistoryOf(userId, doc.id))
           case Some(i) => histories[i].id
           case None => newHistoryId
  {
    if documentId.None? || !Truthy(question) then (histories, Err(MissingField))
    else
      match RequireReadyDocument(docs, userId, documentId)
      case Err(e) => (histories, Err(e))
      case Ok(doc) =>
        var q := question.value;
        var ranked := rank(doc.chunks, q, RankedChunks);
        match FindIndex(histories, HistoryOf(userId, doc.id))
        case None =>
          var created := histories + [ChatHistory(newHistoryId, userId, doc.id, [])];
          ChatWithHistory(created, |histories|, q, ranked, ask(q, ranked), now)
        case Some(i) => ChatWithHistory(histories, i, q, ranked, ask(q, ranked), now)
  }

  /** A chat turn appends exactly two messages to the user's history for the
      document, the question first and the answer with its provenance second;
      every earlier message and every other history is kept. */
  lemma ChatAppendsTurn(docs: seq<Document>, histories: seq<ChatHistory>, userId: Id, documentId: Option<Id>,
                        question: Option<string>, rank: (seq<Chunk>, string, nat) -> seq<Chunk>,
                        ask: (string, seq<Chunk>) -> Option<string>, now: Time, newHistoryId: Id)
    requires Chat(docs, histories, userId, documentId, question, rank, ask, now, newHistoryId).1.Ok?
    ensures var doc := RequireReadyDocument(docs, userId, documentId).value;
      var ranked := rank(doc.chunks, question.value, RankedChunks);
      var turn := Turn(question.value, ask(question.value, ranked).value, ChunkIndices(ranked), now);
      var after := Chat(docs, histories, userId, documentId, question, rank, ask, now, newHistoryId).0;
      match FindIndex(histories, HistoryOf(userId, doc.id))
      case Some(i) =>
        && |after| == |histories|
        && after[i] == histories[i].(messages := histories[i].messages + turn)
        && (forall k :: 0 <= k < |histories| && k != i ==> after[k] == histories[k])
      case None =>
        after == histories + [ChatHistory(newHistoryId, userId, doc.id, turn)]
  {
    var doc := RequireReadyDocument(docs, userId, documentId).value;
    var ranked := rank(doc.chunks, question.value, RankedChunks);
    var turn := Turn(question.value, ask(question.value, ranked).value, ChunkIndices(ranked), now);
    assert [] + turn == turn;
  }

  /** As written, a valid first question about a document is refused: the
      empty history is created and the turn is lost. The repeated request then
      finds that history and succeeds. */
  lemma ChatAsWrittenLosesFirstTurn(docs: seq<Document>, histories: seq<ChatHistory>, userId: Id, documentId: Id,
                                    question: string, rank: (seq<Chunk>, string, nat) -> seq<Chunk>,
                                    ask: (string, seq<Chunk>) -> Option<string>, now: Time, newHistoryId: Id, later: Time)
    requires question != []
    requires RequireReadyDocument(docs, userId, Some(documentId)).Ok?
    requires forall k :: 0 <= k < |histories| ==> !HistoryOf(userId, documentId)(histories[k])
    requires ask(question, rank(RequireReadyDocument(docs, userId, Some(documentId)).value.chunks, question, RankedChunks)).Some?
    ensures var (after, r) := ChatAsWritten(docs, histories, userId, Some(documentId), Some(question), rank, ask, now, newHistoryId);
      && r == Err(ConstAssignment)
      && after == histories + [ChatHistory(newHistoryId, userId, documentId, [])]
      && ChatAsWritten(docs, after, userId, Some(documentId), Some(question), rank, ask, later, newHistoryId).1.Ok?
    ensures Chat(docs, histories, userId, Some(documentId), Some(question), rank, ask, now, newHistoryId).1.Ok?
  {
    var doc := RequireReadyDocument(docs, userId, Some(documentId)).value;
    var after := histories + [ChatHistory(newHistoryId, userId, documentId, [])];
    assert HistoryOf(userId, doc.id)(after[|histories|]);
    assert forall k :: 0 <= k < |histories| ==> after[k] == histories[k];
    assert FindIndex(after, HistoryOf(userId, doc.id)) == Some(|histories|);
  }

  /** `getChatHistory`: the messages of the user's history for the document. */
  function GetChatHistory(histories: seq<ChatHistory>, userId: Id, documentId: Option<Id>): (r: Result<seq<Message>, AiError>)
    ensures documentId.None? <==> r == Err(MissingField)
    ensures documentId.Some? ==>
      (r == Err(NoChatHistory) <==> forall k :: 0 <= k < |histories| ==> !HistoryOf(userId, documentId.value)(histories[k]))
    ensures r.Err? ==> r.error == MissingField || r.error == NoChatHistory
    ensures r.Ok? ==>
      exists i ::
        && 0 <= i < |histories| && HistoryOf(userId, documentId.value)(histories[i])
        && (forall j :: 0 <= j < i ==> !HistoryOf(userId, documentId.value)(histories[j]))
        && r.value == histories[i].messages
  {
    match documentId
    case None => Err(MissingField)
    case Some(id) =>
      match FindIndex(histories, HistoryOf(userId, id))
      case None => Err(NoChatHistory)
      case Some(i) => Ok(histories[i].messages)
  }

  /** After a turn, the stored history reads back ending in that turn. */
  lemma ChatThenHistory(docs: seq<Document>, histories: seq<ChatHistory>, userId: Id, documentId: Option<Id>,
                        question: Option<string>, rank: (seq<Chunk>, string, nat) -> seq<Chunk>,
                        ask: (string, seq<Chunk>) -> Option<string>, now: Time, newHistoryId: Id)
    requires Chat(docs, histories, userId, documentId, question, rank, ask, now, newHistoryId).1.Ok?
    ensures var doc := RequireReadyDocument(docs, userId, documentId).value;
      var ranked := rank(doc.chunks, question.value, RankedChunks);
      var turn := Turn(question.value, ask(question.value, ranked).value, ChunkIndices(ranked), now);
      var after := Chat(docs, histories, userId, documentId, question, rank, ask, now, newHistoryId).0;
      var read := GetChatHistory(after, userId, documentId);
      && read.Ok?
      && |read.value| >= 2
      && read.value[|read.value| - 2..] == turn
  {
    var doc := RequireReadyDocument(docs, userId, documentId).value;
    var after := Chat(docs, histories, userId, documentId, question, rank, ask, now, newHistoryId).0;
    ChatAppendsTurn(docs, histories, userId, documentId, question, rank, ask, now, newHistoryId);
    match FindIndex(histories, HistoryOf(userId, doc.id))
    case Some(i) =>
      assert forall k :: 0 <= k < i ==> after[k] == histories[k];
      assert FindIndex(after, HistoryOf(userId, doc.id)) == Some(i);
    case None =>
      assert forall k :: 0 <= k < |histories| ==> after[k] == histories[k];
      assert FindIndex(after, HistoryOf(userId, doc.id)) == Some(|histories|);
  }

  datatype Explanation = Explanation(concept: string, explanation: string, relevantChunks: seq<nat>)

  /** `explainConcept`: the engine explains the concept from the three ranked
      chunks' contents joined by blank lines; the reply names those chunks.
      `explain(concept, context)` is the engine's answer. */
  function ExplainConcept(docs: seq<Document>, userId: Id, documentId: Option<Id>, concept: Option<string>,
                          rank: (seq<Chunk>, string, nat) -> seq<Chunk>, explain: (string, string) -> Option<string>)
    : (r: Result<Explanation, AiError>)
    ensures documentId.None? || !Truthy(concept) <==> r == Err(MissingField)
    ensures documentId.Some? && Truthy(concept) && RequireReadyDocument(docs, userId, documentId).Err? ==> r == Err(RequireReadyDocument(docs, userId, documentId).error)
    ensures r.Ok? <==>
      && documentId.Some? && Truthy(concept) && RequireReadyDocument(docs, userId, documentId).Ok?
      && explain(concept.value,
                 JsJoin(Contents(rank(RequireReadyDocument(docs, userId, documentId).value.chunks, concept.value, RankedChunks)), ContextSeparator)).Some?
    ensures r.Ok? ==>
      && RequireReadyDocument(docs, userId, documentId).Ok?
      && var doc := RequireReadyDocument(docs, userId, documentId).value;
      && var ranked := rank(doc.chunks, concept.value, RankedChunks);
      && explain(concept.value, JsJoin(Contents(ranked), ContextSeparator)).Some?
      && r.value.concept == concept.value
      && r.value.explanation == explain(concept.value, JsJoin(Contents(ranked), ContextSeparator)).value
      && r.value.relevantChunks == ChunkIndices(ranked)
  {
    if documentId.None? || !Truthy(concept) then Err(MissingField)
    else
      match RequireReadyDocument(docs, userId, documentId)
      case Err(e) => Err(e)
      case Ok(doc) =>
        var c := concept.value;
        var ranked := rank(doc.chunks, c, RankedChunks);
        match explain(c, JsJoin(Contents(ranked), ContextSeparator))
        case None => Err(EngineFailed)
        case Some(e) => Ok(Explanation(c, e, ChunkIndices(ranked)))
  }

  /** Chat and explain rank the same way: asked the same text about the same
      document, the chat answer and the explanation cite the same chunks. */
  lemma ChatAndExplainCiteAlike(docs: seq<Document>, histories: seq<ChatHistory>, userId: Id, documentId: Option<Id>,
                                text: Option<string>, rank: (seq<Chunk>, string, nat) -> seq<Chunk>,
                                ask: (string, seq<Chunk>) -> Option<string>, explain: (string, string) -> Option<string>,
                                now: Time, newHistoryId: Id)
    requires Chat(docs, histories, userId, documentId, text, rank, ask, now, newHistoryId).1.Ok?
    requires ExplainConcept(docs, userId, documentId, text, rank, explain).Ok?
    ensures Chat(docs, histories, userId, documentId, text, rank, ask, now, newHistoryId).1.value.relevantChunks
      == ExplainConcept(docs, userId, documentId, text, rank, explain).value.relevantChunks
  {
  }

  /** The context handed to the engine holds each ranked chunk's content
      unchanged, in rank order: the next chunk starts only after the previous
      one and a blank-line separator have ended. */
  lemma ExplainContextHoldsChunks(ranked: seq<Chunk>)
    ensures forall k :: 0 <= k < |ranked| ==>
      OccursAt(JsJoin(Contents(ranked), ContextSeparator), ranked[k].content, JoinOffset(Contents(ranked), ContextSeparator, k))
    ensures forall j, k :: 0 <= j < k < |ranked| ==>
      JoinOffset(Contents(ranked), ContextSeparator, j) + |ranked[j].content| + |ContextSeparator|
        <= JoinOffset(Contents(ranked), ContextSeparator, k)
  {
    if |ranked| > 0 {
      JoinHoldsParts(Contents(ranked), ContextSeparator);
    }
  }
}
