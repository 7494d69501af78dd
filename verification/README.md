# AI study assistant: a Dafny model of its core logic

The application lets a user upload PDF documents. A background step extracts
and chunks the text. A generative model then writes flashcards, quizzes,
summaries, chat answers and concept explanations from it. The user reviews
cards, takes quizzes and sees a dashboard of progress.

This project models the deterministic core of that system as pure Dafny
functions over immutable datatypes:

- the two tolerant parsers that turn the model's free text into flashcards
  and quiz questions (`parser.dfy`);
- quiz submission, scoring and the detailed results (`quizzes.dfy`);
- reviewing, starring and deleting stored flashcards (`flashcards.dfy`);
- the dashboard statistics (`progress.dfy`);
- the generation, chat and explanation endpoints (`ai.dfy`);
- document upload, ingestion, lookup, listing and deletion (`documents.dfy`);
- the client-side flashcard viewers (`viewer.dfy`);
- the change-password form (`profile.dfy`).

`base.dfy` holds the generic sequence helpers: first and last match, counting,
filtering, JavaScript's `slice`, and integer round-half-up. `text.dfy` holds
the string operations the code relies on: `trim`, `split`, `join`,
`startsWith`, ASCII `toLowerCase`, and UTF-16 `length`. `domain.dfy` declares
the stored records.

## How the model is organized

Each database collection is a sequence of records. A Mongo `findOne` is the
first matching element (`FindIndex`), and a write returns the new sequence.
HTTP outcomes are `Result` values whose error constructors name the source's
error responses.

Anything the code cannot see or cannot predict is an input to the model:

- the generative model's answers (`respond`, `ask`, `explain`, `summarize`);
- the chunker and the relevance ranker (`chunkText`, `rank`);
- the PDF extractor's outcome;
- timestamps (`now`);
- new identifiers;
- the success or failure of a client's server call (`ok`).

## Model

| member | source | states |
|---|---|---|
| GeminiParser.CardSegmentsSpec | backend/utils/geminiService.js:36 | No segment contains `---`. Joining the split pieces with `---` gives back the whole response, so no text is lost between segments. |
| GeminiParser.ParseCardAccepts | backend/utils/geminiService.js:39-58 | A segment yields a card iff the last `Q:` value and the last `A:` value are both non-empty after trimming. The card carries exactly those values and the last recognised difficulty, with `medium` as the default. |
| GeminiParser.ScanCardLinesLastWins | backend/utils/geminiService.js:44-55 | Last writer wins: each field holds the value of the last line with its tag. An unrecognised `D:` value never overwrites an earlier recognised one. |
| GeminiParser.IndentedCardLineIgnored | backend/utils/geminiService.js:39-45 | Flashcard lines are not trimmed one by one, so a line starting with white space changes no field. |
| GeminiParser.ParseCard | backend/utils/geminiService.js:39-58 | An accepted card's question and answer are non-empty and carry no surrounding white space. |
| GeminiParser.CollectCardsAppend | backend/utils/geminiService.js:38-59 | The accepted cards appear in segment order: collecting distributes over concatenated segment lists. |
| GeminiParser.ParseFlashcards | backend/utils/geminiService.js:35-61 | The result is a prefix of the accepted cards, following `slice(0, count)`. A count from 0 up to the number accepted keeps exactly that many, a larger count keeps them all, and a negative count drops that many from the end (none left when it exceeds them). Every card is trimmed and non-empty. |
| GeminiParser.ParseQuestionAccepts | backend/utils/geminiService.js:104-134 | A block yields a question iff three things hold: the last `Q:` value is non-empty, exactly four `NN:` option lines appear, and some `C:` line starts with two digits. The record has those options in order with their tags dropped, `correctAnswer` equal to the last such number minus one with no range check, the last `E:` text (default empty), and the last recognised difficulty (default `medium`). |
| GeminiParser.ScanQuestionLinesOptions | backend/utils/geminiService.js:116-117 | Every option line appends its trimmed text after the three-character tag, in line order. |
| GeminiParser.ScanQuestionLinesKey | backend/utils/geminiService.js:118-124 | `correctAnswer` comes from the last `C:` line with a leading two-digit number. A `C:` line without one leaves it unchanged. |
| GeminiParser.LeadingNumberExamples | backend/utils/geminiService.js:119-123 | `C: 02`, `C: 00` and `C: 07 text` give the numbers 2, 0 and 7. A single digit gives no key. |
| GeminiParser.ParseQuestion | backend/utils/geminiService.js:134-142 | An accepted question has a trimmed non-empty text, exactly four options and a `correctAnswer` between -1 and 98. |
| GeminiParser.CollectQuestionsAppend | backend/utils/geminiService.js:103-143 | Accepted questions appear in block order. |
| GeminiParser.ParseQuiz | backend/utils/geminiService.js:98-144 | The result is a prefix of the accepted questions, following `slice(0, numQuestions)`. A count from 0 up to the number accepted keeps exactly that many, a larger count keeps them all, and a negative count drops that many from the end. Each question has four options. |
| Quizzes.GradeAllSpec | backend/controllers/quizController.js:79-95 | The recorded answers are exactly the in-range answers, in submission order. Each is graded against its own question. |
| Quizzes.GradeAll | backend/controllers/quizController.js:79-95 | One answer is recorded per submitted answer whose index names a question, and the out-of-range ones are dropped. |
| Quizzes.GradeAllUnanswered | backend/controllers/quizController.js:79-95 | A question that no submitted answer names is named by no recorded answer. |
| Quizzes.ProcessAnswers | backend/controllers/quizController.js:76-95 | The loop records the graded in-range answers, and its counter equals the number of correct records. |
| Quizzes.Score | backend/controllers/quizController.js:97 | The score is `100 * correct / total` rounded half up, as integer bounds. |
| Quizzes.ScoreRange | backend/controllers/quizController.js:97 | With no more correct answers than questions, the score lies in [0, 100]. |
| Quizzes.Submit | backend/controllers/quizController.js:68-102 | A quiz with `completedAt` set is refused as already submitted, and only then. A quiz with no questions gives an undefined score. Submission succeeds iff the quiz is unsubmitted and has questions, and then it records the graded answers, the rounded score and the submission time, with every other field unchanged. |
| Quizzes.SubmitQuiz | backend/controllers/quizController.js:46-102 | A non-array body is refused first, then a quiz the user does not own. For the user's first matching quiz, the outcome is that of `Submit`: its refusal is passed through, and its success replaces exactly that quiz in the collection. |
| Quizzes.ResubmitRejected | backend/controllers/quizController.js:68-74 | Submission is one-shot: a second submission of the same quiz is refused and changes nothing. |
| Quizzes.ScoreBounds | backend/controllers/quizController.js:79-97 | With distinct answer indices and `totalQuestions` equal to the number of questions, submission succeeds with a score in [0, 100]. |
| Quizzes.RepeatedIndexCountsTwice | backend/controllers/quizController.js:79-97 | Repeated indices are graded again: one question answered correctly twice scores 200. |
| Quizzes.Row | backend/controllers/quizController.js:145-157 | A row copies its question's text, options, key and explanation. Its selection is `null` iff no recorded answer names the question, and then the row is not correct. Otherwise the selection and correctness are those of the first recorded answer to that question. |
| Quizzes.QuizResults | backend/controllers/quizController.js:122-158 | A quiz the user does not own is refused with "not found", and an unsubmitted quiz with "not yet submitted". Otherwise the result is the user's first matching quiz, which is submitted, with one row per question, row k being `Row(quiz, k)`. |
| Quizzes.ResultsAfterSubmit | backend/controllers/quizController.js:145-158 | After a submission, each row shows the first submitted answer to its question, or `null` when there is none. The row is correct exactly when that answer is the question's correct answer. |
| Flashcards.Locate | backend/controllers/flashCardController.js:45-67 | The card named by a request is the first card with that id in the user's first set holding it. There is none iff no set of the user has such a card. |
| Flashcards.Review | backend/controllers/flashCardController.js:43-73 | A request fails iff the user has no such card. On success, that card alone gets one more review and the review time. |
| Flashcards.ToggleStar | backend/controllers/flashCardController.js:86-116 | A request fails iff the user has no such card. On success, that card alone has its star negated. |
| Flashcards.ToggleTwice | backend/controllers/flashCardController.js:101-114 | Toggling the same card twice restores the store. |
| Flashcards.ReviewTwice | backend/controllers/flashCardController.js:58-71 | Two reviews of a card add two to its count and keep the later time. |
| Flashcards.DeleteSet | backend/controllers/flashCardController.js:131-146 | Deletion fails iff the user owns no set with that id. Otherwise it removes one such set and keeps the rest in order. |
| Flashcards.DeleteRemovesOnlyTarget | backend/controllers/flashCardController.js:133-146 | With distinct set ids, the named set is gone, every other set remains, and the store shrinks by one. |
| Flashcards.DeleteAppended | backend/controllers/flashCardController.js:131-146 | Deleting a set that was just appended, under an id no other set has, gives the earlier store back. |
| Progress.TallyCountsAllCards | backend/controllers/progressController.js:21-29 | Adding up set by set equals counting over all cards: the total, the reviewed cards and the starred cards. |
| Progress.Average | backend/controllers/progressController.js:33-35 | The average is 0 without scores, otherwise the mean rounded half up. |
| Progress.AverageWithin | backend/controllers/progressController.js:33-35 | The rounded mean of values in [lo, hi] lies in [lo, hi]. |
| Progress.Dashboard | backend/controllers/progressController.js:12-35 | Documents, sets and quizzes are the counts of the user's records, and completed quizzes those with a completion time. The card figures count over every card of the user's sets, and the average is the rounded mean of the completed quizzes' scores. Reviewed and starred never exceed the total, and completed never exceeds all quizzes. |
| Progress.AverageIsPercentage | backend/controllers/progressController.js:32-35 | When every completed score is a percentage, so is the average. |
| Progress.DashboardAddSet | backend/controllers/progressController.js:12-35 | Adding a set of the user whose cards are all unreviewed and unstarred raises the set count by one and the card total by its size. The reviewed and starred counts, the document and quiz counts, the completed quizzes and the average stay the same. |
| Ai.RequireReadyDocument | backend/controllers/aiController.js:12-32 | A missing document id is refused first. Otherwise the result is the user's document in the `ready` state, and the request is refused iff there is none. |
| Ai.NewCards | backend/controllers/aiController.js:45-51 | Stored cards keep each generated card's texts and difficulty in order. None of them is reviewed or starred yet. |
| Ai.GenerateFlashCards | backend/controllers/aiController.js:9-52 | Any refusal of the document lookup is passed through unchanged. The request succeeds iff the ready document was found and the engine returned an answer, so an engine failure is reported iff the document was found and the engine returned nothing. A success appends one new set of the user for that document, holding the parsed cards of the answer, at most `count` of them. |
| Ai.GeneratedSetJoinsDashboard | backend/controllers/aiController.js:38-52 | After a generation, the dashboard shows one more set and the new cards in the total, while the reviewed and starred counts are unchanged. |
| Ai.GeneratedSetDeletes | backend/controllers/aiController.js:38-52 | Deleting the generated set by its fresh id restores the store from before the generation. |
| Ai.QuizTitle | backend/controllers/aiController.js:97 | The given title when it is non-empty, otherwise the document's title followed by " - Quiz". |
| Ai.GenerateQuiz | backend/controllers/aiController.js:65-102 | Any refusal of the document lookup is passed through. The request succeeds iff the ready document was found and the engine returned an answer. A success appends a new unsubmitted quiz holding the parsed questions, `totalQuestions` equal to their number, no answers and score 0. |
| Ai.GeneratedQuizScoresPercentage | backend/controllers/aiController.js:94-102 | A generated quiz with at least one question accepts its first submission. With distinct answer indices its score is a percentage. |
| Ai.GenerateSummary | backend/controllers/aiController.js:115-147 | Any refusal of the document lookup is passed through. The request succeeds iff the ready document was found and the engine summarized its text, and then it returns that summary with the document's id and title. |
| Ai.ChunkIndices | backend/controllers/aiController.js:178-179 | The provenance is the chunk index of each ranked chunk, in rank order. |
| Ai.AppendTurn | backend/controllers/aiController.js:201-215 | The turn is appended to one history, and every other history is kept. |
| Ai.Chat | backend/controllers/aiController.js:154-231 | This member is the corrected get-or-create. A missing id or question is refused, and a refusal of the document lookup is passed through with the histories unchanged. The turn succeeds iff the ready document was found and the engine answered for the three ranked chunks. When the engine fails, the error is an engine failure, existing histories are kept, and only the newly created empty history is added. The reply carries the question, the answer, the chunk indices and the id of the user's existing history for the document, or the new id when there was none. |
| Ai.ChatAsWritten | backend/controllers/aiController.js:154-231 | As written, when the ready document has no history yet, a new empty history is stored and the turn fails on the `const` assignment. On every other input the handler behaves as `Ai.Chat`. |
| Ai.ChatAppendsTurn | backend/controllers/aiController.js:201-215 | A turn appends exactly two messages to the user's history for the document, changing none of its other fields: the question with no provenance, then the answer with its chunk indices. Other histories are kept. A first turn creates the history holding just those two. |
| Ai.ChatAsWrittenLosesFirstTurn | backend/controllers/aiController.js:182-194 | As written, the first question about a document creates an empty history and then fails on the `const` reassignment, so the turn is lost. A retry succeeds, and the corrected `Chat` succeeds at once. |
| Ai.GetChatHistory | backend/controllers/aiController.js:277-298 | A missing id is refused. "No history" is reported iff the user has no history for the document, and no other error occurs. Otherwise the result is the messages of the user's first history for it. |
| Ai.ChatThenHistory | backend/controllers/aiController.js:201-215 | After a successful turn, reading the history back ends with that turn's two messages. |
| Ai.ChatAndExplainCiteAlike | backend/controllers/aiController.js:178-267 | When a chat turn and an explanation of the same text about the same document both succeed, they cite the same chunk indices, since both rank the chunks in the same way. |
| Ai.ExplainConcept | backend/controllers/aiController.js:234-267 | A missing id or concept is refused, and a refusal of the document lookup is passed through. The request succeeds iff the ready document was found and the engine explained the concept from the three ranked chunks' contents joined by blank lines. The reply names those chunks' indices. |
| Ai.ExplainContextHoldsChunks | backend/controllers/aiController.js:259 | The context handed to the engine holds every ranked chunk's content unchanged at its join offset. Each chunk starts only after the previous one and its blank-line separator have ended, so the chunks appear whole and in rank order. |
| Documents.FileUrlShape | backend/controllers/documentController.js:50-51 | The stored path is the local-server URL of the uploaded file under `/uploads/documents/`, on the configured port or 8000. |
| Documents.Upload | backend/controllers/documentController.js:28-62 | A request without a file is refused first. One without a title is refused next, and it names the temporary file removed. No other refusal occurs: otherwise one `processing` document with no text and no chunks is appended. |
| Documents.UpdateById | backend/controllers/documentController.js:16-25 | Only the document with that id changes. Without one, nothing changes. |
| Documents.Ingest | backend/controllers/documentController.js:10-27 | When extraction and chunking succeed, the document becomes `ready` with the text and chunks (size 500, overlap 50). Otherwise it becomes `failed` and nothing else changes. |
| Documents.UploadThenIngest | backend/controllers/documentController.js:10-62 | An uploaded document leaves `processing`. It is `ready` iff extraction and chunking succeeded, holding exactly their results. Otherwise it is `failed` with no text. |
| Documents.GetDocumentById | backend/controllers/documentController.js:137-169 | Only the user's document is found. It is returned with the access time stamped and with the counts of the user's sets and quizzes for it. |
| Documents.GetDocuments | backend/controllers/documentController.js:84-120 | There is one entry per document of the user and every entry is the user's. Each entry's counts are the numbers of sets and of quizzes whose document id is the entry's. |
| Documents.Summarize | backend/controllers/documentController.js:90-110 | An entry keeps the document's stored fields. Its counts are the sets and quizzes whose document id matches, whoever owns them. |
| Documents.GetDocumentsComplete | backend/controllers/documentController.js:84-120 | Every document of the user appears in the list as its summary. |
| Documents.GetDocumentsSound | backend/controllers/documentController.js:84-120 | Every entry of the list is the summary of some document of the user. |
| Documents.ListedCountsBoundDetail | backend/controllers/documentController.js:90-110 | The list's counts ignore the owner, so they are never below the detail view's. They coincide when every set and quiz of the document is the user's. |
| Documents.DeleteDocument | backend/controllers/documentController.js:180-196 | Deletion fails iff the user owns no such document. Otherwise it removes that one document and hands its stored path to `unlink`. |
| Documents.UploadThenDelete | backend/controllers/documentController.js:50-62 | Deleting a freshly uploaded document restores the collection. The name handed to `unlink` is the `http://localhost:` URL, not the stored file's path. |
| Viewer.Next | frontend/src/components/flashCards/FlashCardManaager.jsx:67-69 | `(i + 1) mod n` stays in [0, n), advancing by one and wrapping from the last card to 0. |
| Viewer.Prev | frontend/src/components/flashCards/FlashCardManaager.jsx:76-80 | `(i - 1 + n) mod n` stays in [0, n), stepping back by one and wrapping from 0 to the last card. |
| Viewer.NextPrevInverse | frontend/src/components/flashCards/FlashCardManaager.jsx:67-80 | Within range, next after prev and prev after next are the identity. |
| Viewer.FullCircle | frontend/src/components/flashCards/FlashCardManaager.jsx:67-69 | `n` forward moves return to the starting card. |
| Viewer.ReviewOf | frontend/src/components/flashCards/FlashCardManaager.jsx:84-88 | A review is requested iff a card exists at the current index, and it names that card and index. |
| Viewer.ManagerNavigate | frontend/src/components/flashCards/FlashCardManaager.jsx:64-82 | A click does nothing without a selection or with at most one card, because the buttons are disabled. Otherwise it requests a review of the card at the current index, then moves the index and keeps it in range. |
| Viewer.ManagerNavigateRoundTrip | frontend/src/components/flashCards/FlashCardManaager.jsx:64-88 | Each move reviews the shown card, and the opposite move returns to it. |
| Viewer.SelectSet | frontend/src/components/flashCards/FlashCardManaager.jsx:146-149 | Selecting a set shows it from index 0. |
| Viewer.FlipIn | frontend/src/components/flashCards/FlashCardManaager.jsx:107-111 | Only cards with the given id have their star negated. |
| Viewer.FlipInSets | frontend/src/components/flashCards/FlashCardManaager.jsx:100-113 | Only sets with the selected id are rewritten, and every other set is kept. |
| Viewer.ManagerToggle | frontend/src/components/flashCards/FlashCardManaager.jsx:96-122 | A failed call or an empty selection changes nothing. Otherwise the card is flipped in the selected set's copies. The new selection is the updated set with that id, and there is none iff no fetched set has that id. |
| Viewer.ManagerToggleUpdatesSelection | frontend/src/components/flashCards/FlashCardManaager.jsx:115-116 | When the selected set is among the fetched sets, the new selection is that set with the card flipped, and the viewer keeps its place. |
| Viewer.ManagerToggleTwice | frontend/src/components/flashCards/FlashCardManaager.jsx:96-116 | Two successful toggles of one card restore the manager's state. |
| Viewer.PageLoad | frontend/src/pages/FlashCards/FlashCardPage.jsx:34-47 | A fetch shows only the first set and its cards, or no cards when there is no set. The index is kept. |
| Viewer.PageLoadCanLoseCard | frontend/src/pages/FlashCards/FlashCardPage.jsx:39-40 | Because the index is kept, reloading a shorter deck leaves the counter past the last card with no card to show. |
| Viewer.PageLoadReset | frontend/src/pages/FlashCards/FlashCardPage.jsx:34-51 | A reload that resets the index always leaves a card in view, or an empty deck. |
| Viewer.PageLoadResetShowsCard | frontend/src/pages/FlashCards/FlashCardPage.jsx:34-51 | After a reload that resets the index, the page shows a card or the empty state, never a blank view. |
| Viewer.Render | frontend/src/pages/FlashCards/FlashCardPage.jsx:122-153 | The empty state shows iff there are no cards. Otherwise the page shows the indexed card with the counter `i + 1 / n`. |
| Viewer.PageNavigate | frontend/src/pages/FlashCards/FlashCardPage.jsx:67-89 | With at most one card the buttons are disabled. Otherwise it requests a review of the card at the index, if there is one, and always leaves the index in range. |
| Viewer.PageNavigateRoundTrip | frontend/src/pages/FlashCards/FlashCardPage.jsx:67-77 | Opposite moves undo each other on the page too. |
| Viewer.PageToggle | frontend/src/pages/FlashCards/FlashCardPage.jsx:91-105 | A successful toggle flips the star of the matching card only. A failed one changes nothing. |
| Viewer.PageToggleTwice | frontend/src/pages/FlashCards/FlashCardPage.jsx:91-105 | Two successful toggles restore the page. |
| Profile.Validate | frontend/src/pages/Profile/ProfilePage.jsx:48-60 | The three inputs are `required`, so a form with an empty field is refused first, before the handler runs. Then a mismatch is reported iff new and confirm differ. "Too short" is reported iff they match and the new password has fewer than 6 UTF-16 units. A request is sent iff all checks pass, and it carries all three fields. |
| Profile.Settle | frontend/src/pages/Profile/ProfilePage.jsx:61-67 | On success all three fields become empty. On failure the form is kept. |
| Profile.Submit | frontend/src/pages/Profile/ProfilePage.jsx:48-71 | A rejected form, whether refused by the browser or the handler, is kept and nothing is sent. A valid form sends its request and then settles. |
| Profile.LengthCountsCodeUnits | frontend/src/pages/Profile/ProfilePage.jsx:54 | Length is in UTF-16 units: three astral characters pass, and three letters do not. |
| Profile.ClearedFormIsRejected | frontend/src/pages/Profile/ProfilePage.jsx:48-64 | After a successful change the cleared form is refused by the browser for its empty `required` fields, so nothing is sent. |

## Left out

- The generative model and its prompt are not modelled: the prompt text, the 15000- and 10000-character truncation, and the error-message mapping. Only the parse of a response string is modelled, and an engine failure is an `EngineFailed` outcome.
- `chunkText` and `findRelevantChunks` are function parameters, because `textChunker.js` is not part of this model. The extractor in `pdfParser.js` is an optional text.
- Mongo query mechanics are abstracted: a lookup is the first match in sequence order, and sort orders are not modelled. This covers the listing's sort, the dashboard's recent activity and `populate`.
- `processPDF` runs detached from the upload response. Only its effect on the document is modelled. A failure of the `ready` update itself is folded into the failed branch, which the code also takes.
- `fs.unlink` is not modelled as a file-system effect. The model returns the name handed to it, and the failure that `deleteDocument` swallows is not modelled.
- `studyStreak` is left out, because it is a random number.
- The dashboard's `recentActivity` is left out (sorting and `limit` only).
- `getFlashcards`, `getAllFlashcardSets`, `getQuizzers`, `getQuizById` and `deleteQuiz` are plain lookups by user and id. They are not modelled beyond the shared lookup helpers.
- `authController.js` is left out: token signing, password hashing in the user model, and credential handling are not visible.
- The frontend's HTTP services, the axios instance and the route table are left out, and so are loading spinners, toasts, modals and rendering beyond the view choice in `Viewer.Render`.
- The manager's `handleGenerateFlashCards` and `handleConfirmDelte` only refetch, so they are not modelled.
- The dashboard score is the `Math.round` of a floating-point mean. Quizzes.Score and Progress.Average compute exact round-half-up on integers, and floating-point error is not modelled.
- Quizzes.Submit: a quiz with `totalQuestions` 0 makes the code store `NaN` as the score. The model reports `ScoreUndefined` instead and does not store the quiz.
- Quizzes.Answer: `questionIndex` is a `nat`. A negative index passes the code's `<` check and then reads an undefined question, and that path is not modelled.
- `parseInt` of a non-numeric count yields `NaN`, which `slice` treats as 0. Ai.GenerateFlashCards and Ai.GenerateQuiz take the already parsed `int`, and the `NaN` case is not modelled.
- Text.AsciiLower folds only ASCII letters, whereas JavaScript's `toLowerCase` also folds other scripts. The lowered value is only compared with `easy`, `medium` and `hard`. The one non-ASCII character that JavaScript lowers to a single ASCII letter is the Kelvin sign, which becomes `k`, and none of the three words contains `k`, so the comparison comes out the same.
- Flashcards.Review and Flashcards.ToggleStar: the model's `Id` has a single spelling, so the set found by a card id always holds a card with that id and the "card not in set" branch is dead in the model. In the program it can be reached. `findOne({"cards._id": cardId})` casts the id to an ObjectId regardless of hex case, while `card._id.toString() === cardId` compares against lower-case hex. An upper-case id therefore finds the set and still gets the "Card not Found in a set" 404. Case-insensitive id matching is not modelled, so the model never returns `CardNotInSet`.
- A segment is cut at every `---` substring, as the code does, not only at delimiter lines.
- The manager's toggle without a selection is unreachable in the interface. The model keeps the state, which is also what the code's thrown error and its empty-list case leave.
- Next and Prev require `n > 0`. With no cards the code's modulus is `NaN`, but the navigation buttons are disabled then.

## Findings

| source | as written | input that shows it | evidently intended | confidence | as-written member | corrected member |
|---|---|---|---|---|---|---|
| backend/controllers/aiController.js:182-194 | `chathistory` is declared `const` and then assigned when no history exists. The assignment runs after `ChatHistory.create` has returned, then throws a `TypeError`. | A first question about a ready document of the user, with no chat history yet. The history is created empty, the request fails, and the question and answer are lost. | Create the history when missing, then append the turn to it. | high, not executed | Ai.ChatAsWritten, Ai.ChatAsWrittenLosesFirstTurn | Ai.Chat, Ai.ChatAppendsTurn |
| frontend/src/pages/FlashCards/FlashCardPage.jsx:34-51 | `fetchFlashcards` replaces the cards but keeps `currentCardIndex`. It runs again whenever `documentId` changes. | Viewing card 3 of 3, then navigating to a document whose set has 2 cards. The index 2 is past the end, so `flashcards[2]` is undefined under the counter "3 / 2". | Reset the index to 0 when a new deck loads, as the manager does on selection. | medium, not executed | Viewer.PageLoad, Viewer.PageLoadCanLoseCard | Viewer.PageLoadReset, Viewer.PageLoadResetShowsCard |
