/** The stored records: documents and their chunks, flashcard sets, quizzes
    and chat histories, as the controllers read and write them. Collections
    are sequences in the store's natural order; ownership is the `userId`
    field. */
module Domain {

  import opened Base

  datatype Difficulty = Easy | Medium | Hard

  /** A flashcard as the generation-response parser produces it. */
  datatype GeneratedCard = GeneratedCard(question: string, answer: string, difficulty: Difficulty)

  /** A card stored inside a flashcard set. */
  datatype Card = Card(
    id: Id,
    question: string,
    answer: string,
    difficulty: Difficulty,
    reviewCount: nat,
    isStarred: bool,
    lastReviewed: Option<Time>)

  datatype FlashcardSet = FlashcardSet(id: Id, userId: Id, documentId: Id, cards: seq<Card>)

  /** A multiple-choice question; `correctAnswer` is whatever the parser
      derived, so it is an `int` and not a checked option index. */
  datatype QuizQuestion = QuizQuestion(
    question: string,
    options: seq<string>,
    correctAnswer: int,
    explanation: string,
    difficulty: Difficulty)

  /** One graded answer recorded at submission. */
  datatype UserAnswer = UserAnswer(questionIndex: nat, selectedAnswer: int, isCorrect: bool, answeredAt: Time)

  datatype Quiz = Quiz(
    id: Id,
    userId: Id,
    documentId: Id,
    title: string,
    questions: seq<QuizQuestion>,
    totalQuestions: nat,
    userAnswers: seq<UserAnswer>,
    score: int,
    completedAt: Option<Time>)

  datatype DocStatus = Processing | Ready | Failed

  /** A retrieval unit; `chunkIndex` is its provenance number. */
  datatype Chunk = Chunk(content: string, chunkIndex: nat)

  /** `extractedText` is `""` and `chunks` is empty until ingestion writes them. */
  datatype Document = Document(
    id: Id,
    userId: Id,
    title: string,
    fileName: string,
    filePath: string,
    fileSize: nat,
    status: DocStatus,
    extractedText: string,
    chunks: seq<Chunk>,
    lastAccessed: Option<Time>)

  datatype Role = UserRole | AssistantRole

  datatype Message = Message(role: Role, content: string, timestamp: Time, relevantChunks: seq<nat>)

  /** The chat log of one user about one document. */
  datatype ChatHistory = ChatHistory(id: Id, userId: Id, documentId: Id, messages: seq<Message>)
}
