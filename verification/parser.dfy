/** The tolerant parsers of `backend/utils/geminiService.js` that turn the free
    text returned by the generation engine into flashcard and quiz-question
    records. The engine call and the prompt around them are not modelled: each
    parser is a total function of the response text and the requested count. */
module GeminiParser {

  import opened Base
  import opened Text
  import opened Domain

  const Delimiter: string := "---"
  const Newline: string := "\n"

  /** `raw.trim().toLowerCase()` when it names one of the three levels. */
  function ParseDifficulty(raw: string): Option<Difficulty> {
    var v := AsciiLower(Trim(raw));
    if v == "easy" then Some(Easy)
    else if v == "medium" then Some(Medium)
    else if v == "hard" then Some(Hard)
    else None
  }

  /** The text after a two-character tag such as `Q:`, trimmed. */
  function TagValue(line: string): string {
    if |line| >= 2 then Trim(line[2..]) else []
  }

  /** Neither empty nor framed by white space: what a trimmed, non-empty field looks like. */
  predicate TrimmedNonEmpty(s: string) {
    s != [] && !IsSpace(s[0]) && !IsSpace(s[|s| - 1])
  }

  /** The value of the last line `isTagged` accepts, or `default` when none does. */
  ghost function LastValue(lines: seq<string>, isTagged: string -> bool, default: string): string {
    match FindLastIndex(lines, isTagged)
    case None => default
    case Some(i) => TagValue(lines[i])
  }

  predicate IsQuestionLine(line: string) {
    StartsWith(line, "Q:")
  }

  /** A `D:` line whose value is a recognised level; other `D:` lines change nothing. */
  predicate IsDifficultyLine(line: string) {
    StartsWith(line, "D:") && ParseDifficulty(line[2..]).Some?
  }

  /** The difficulty of the last recognised `D:` line, or `default`. */
  ghost function LastDifficulty(lines: seq<string>, default: Difficulty): Difficulty {
    match FindLastIndex(lines, IsDifficultyLine)
    case None => default
    case Some(i) => ParseDifficulty(lines[i][2..]).value
  }

  // ---------------------------------------------------------------------------
  // Flashcards (geminiService.js lines 35-61)
  // ---------------------------------------------------------------------------

  predicate IsAnswerLine(line: string) {
    StartsWith(line, "A:")
  }

  predicate NonBlank(s: string) {
    Trim(s) != []
  }

  /** `text.split("---").filter(c => c.trim())`: every `---` cuts, even inside a
      line, and white-space-only pieces are dropped. */
  function CardSegments(text: string): (segs: seq<string>)
    ensures forall k :: 0 <= k < |segs| ==> NonBlank(segs[k])
  {
    Filter(Split(text, Delimiter), NonBlank)
  }

  /** Segments are exactly the non-blank pieces between `---` cuts, in order,
      and none of them contains `---`. */
  lemma CardSegmentsSpec(text: string)
    ensures forall k :: 0 <= k < |CardSegments(text)| ==> !Contains(CardSegments(text)[k], Delimiter)
    ensures Join(Split(text, Delimiter), Delimiter) == text
  {
    SplitPiecesFree(text, Delimiter);
    SplitJoin(text, Delimiter);
  }

  /** The fields a flashcard segment has set so far. */
  datatype CardDraft = CardDraft(question: string, answer: string, difficulty: Difficulty)

  const EmptyCard := CardDraft("", "", Medium)

  /** One iteration of the line loop. Lines are not trimmed, so only a line
      that starts exactly with the tag is recognised. */
  function ScanCardLine(d: CardDraft, line: string): CardDraft {
    if StartsWith(line, "Q:") then d.(question := TagValue(line))
    else if StartsWith(line, "A:") then d.(answer := TagValue(line))
    else if StartsWith(line, "D:") then
      match ParseDifficulty(line[2..])
      case Some(v) => d.(difficulty := v)
      case None => d
    else d
  }

  function ScanCardLines(d: CardDraft, lines: seq<string>): CardDraft
    decreases |lines|
  {
    if |lines| == 0 then d else ScanCardLines(ScanCardLine(d, lines[0]), lines[1..])
  }

  /** `card.trim().split("\n")`. */
  function CardLines(segment: string): seq<string> {
    Split(Trim(segment), Newline)
  }

  /** A segment yields a card when its question and answer are both non-empty. */
  function ParseCard(segment: string): (r: Option<GeneratedCard>)
    ensures r.Some? ==> TrimmedNonEmpty(r.value.question) && TrimmedNonEmpty(r.value.answer)
  {
    var d := ScanCardLines(EmptyCard, CardLines(segment));
    ScanCardLinesClean(EmptyCard, CardLines(segment));
    if d.question != [] && d.answer != [] then Some(GeneratedCard(d.question, d.answer, d.difficulty))
    else None
  }

  /** The accepted candidates, in segment order. */
  function CollectCards(segs: seq<string>): (cards: seq<GeneratedCard>)
    ensures |cards| <= |segs|
    ensures forall k :: 0 <= k < |cards| ==> TrimmedNonEmpty(cards[k].question) && TrimmedNonEmpty(cards[k].answer)
  {
    if |segs| == 0 then []
    else
      match ParseCard(segs[0])
      case Some(c) => [c] + CollectCards(segs[1..])
      case None => CollectCards(segs[1..])
  }

  /** `generateFlashcards` after the engine has answered with `text`. */
  function ParseFlashcards(text: string, count: int): (cards: seq<GeneratedCard>)
    ensures cards <= CollectCards(CardSegments(text))
    ensures count >= 0 ==> |cards| <= count
    ensures count >= 0 && count <= |CollectCards(CardSegments(text))| ==> |cards| == count
    ensures count >= |CollectCards(CardSegments(text))| ==> cards == CollectCards(CardSegments(text))
    ensures count < 0 ==>
      |cards| == if |CollectCards(CardSegments(text))| + count > 0 then |CollectCards(CardSegments(text))| + count else 0
    ensures forall k :: 0 <= k < |cards| ==> TrimmedNonEmpty(cards[k].question) && TrimmedNonEmpty(cards[k].answer)
  {
    JsSlice(CollectCards(CardSegments(text)), count)
  }

  /** Empty, or trimmed and non-empty: the shape of every value `TagValue` yields. */
  predicate Clean(s: string) {
    s == [] || TrimmedNonEmpty(s)
  }

  lemma {:induction false} ScanCardLinesClean(d: CardDraft, lines: seq<string>)
    requires Clean(d.question) && Clean(d.answer)
    ensures Clean(ScanCardLines(d, lines).question) && Clean(ScanCardLines(d, lines).answer)
    decreases |lines|
  {
    if |lines| > 0 {
      ScanCardLineStep(d, lines[0]);
      ScanCardLinesClean(ScanCardLine(d, lines[0]), lines[1..]);
    }
  }

  /** One line sets the question iff it is tagged `Q:`, and so on per field. */
  lemma ScanCardLineStep(d: CardDraft, x: string)
    ensures ScanCardLine(d, x).question == if IsQuestionLine(x) then TagValue(x) else d.question
    ensures ScanCardLine(d, x).answer == if IsAnswerLine(x) then TagValue(x) else d.answer
    ensures ScanCardLine(d, x).difficulty ==
      if IsDifficultyLine(x) then ParseDifficulty(x[2..]).value else d.difficulty
  {
    if StartsWith(x, "Q:") {
      assert !StartsWith(x, "A:") && !StartsWith(x, "D:");
    } else if StartsWith(x, "A:") {
      assert !StartsWith(x, "D:");
    }
  }

  /** Last writer wins: each field of a scanned card holds the value of the
      last line carrying its tag, or the value it started with. */
  lemma {:induction false} ScanCardLinesLastWins(d: CardDraft, lines: seq<string>)
    ensures ScanCardLines(d, lines).question == LastValue(lines, IsQuestionLine, d.question)
    ensures ScanCardLines(d, lines).answer == LastValue(lines, IsAnswerLine, d.answer)
    ensures ScanCardLines(d, lines).difficulty == LastDifficulty(lines, d.difficulty)
    decreases |lines|
  {
    if |lines| > 0 {
      var x := lines[0];
      ScanCardLineStep(d, x);
      ScanCardLinesLastWins(ScanCardLine(d, x), lines[1..]);
      FindLastIndexFront(lines, IsQuestionLine);
      FindLastIndexFront(lines, IsAnswerLine);
      FindLastIndexFront(lines, IsDifficultyLine);
    }
  }

  /** A flashcard segment yields a record iff the last `Q:` value and the last
      `A:` value are both non-empty; the record carries exactly those values and
      the last recognised difficulty, `medium` when there is none. */
  lemma ParseCardAccepts(segment: string)
    ensures var lines := CardLines(segment);
      ParseCard(segment).Some? <==>
        LastValue(lines, IsQuestionLine, "") != [] && LastValue(lines, IsAnswerLine, "") != []
    ensures var lines := CardLines(segment);
      ParseCard(segment).Some? ==>
        ParseCard(segment).value ==
          GeneratedCard(LastValue(lines, IsQuestionLine, ""), LastValue(lines, IsAnswerLine, ""), LastDifficulty(lines, Medium))
  {
    ScanCardLinesLastWins(EmptyCard, CardLines(segment));
  }

  /** A line that starts with white space carries no tag: after the first line
      of a segment, an indented `Q:`, `A:` or `D:` is ignored. */
  lemma IndentedCardLineIgnored(d: CardDraft, line: string)
    requires |line| > 0 && IsSpace(line[0])
    ensures ScanCardLine(d, line) == d
  {
  }

  /** Collecting distributes over concatenation, so cards keep segment order. */
  lemma {:induction false} CollectCardsAppend(a: seq<string>, b: seq<string>)
    ensures CollectCards(a + b) == CollectCards(a) + CollectCards(b)
    decreases |a|
  {
    if |a| > 0 {
      assert (a + b)[1..] == a[1..] + b;
      assert (a + b)[0] == a[0];
      CollectCardsAppend(a[1..], b);
    } else {
      assert a + b == b;
    }
  }

  // ---------------------------------------------------------------------------
  // Quiz questions (geminiService.js lines 96-144)
  // ---------------------------------------------------------------------------

  /** `/^\d{2}:/`: two ASCII digits then a colon. */
  predicate IsOptionLine(line: string) {
    |line| >= 3 && IsDigit(line[0]) && IsDigit(line[1]) && line[2] == ':'
  }

  /** `raw.match(/^(\d{2})/)` read with `parseInt(_, 10)`. */
  function LeadingNumber(raw: string): (n: Option<nat>)
    ensures n.Some? ==> n.value < 100
  {
    if |raw| >= 2 && IsDigit(raw[0]) && IsDigit(raw[1]) then Some(10 * DigitValue(raw[0]) + DigitValue(raw[1]))
    else None
  }

  /** A `C:` line that starts, after trimming, with two digits; other `C:` lines change nothing. */
  predicate IsAnswerKeyLine(line: string) {
    StartsWith(line, "C:") && LeadingNumber(TagValue(line)).Some?
  }

  /** The zero-based option index a `C:` line names: its leading number minus one. */
  function KeyIndex(line: string): int {
    match LeadingNumber(TagValue(line))
    case Some(n) => n - 1
    case None => -1
  }

  predicate IsExplanationLine(line: string) {
    StartsWith(line, "E:")
  }

  /** The fields a question block has set so far. */
  datatype QuestionDraft = QuestionDraft(
    question: string,
    options: seq<string>,
    correctAnswer: Option<int>,
    explanation: string,
    difficulty: Difficulty)

  const EmptyQuestion := QuestionDraft("", [], None, "", Medium)

  /** One iteration of the (already trimmed) line loop. */
  function ScanQuestionLine(d: QuestionDraft, line: string): QuestionDraft {
    if StartsWith(line, "Q:") then d.(question := TagValue(line))
    else if IsOptionLine(line) then d.(options := d.options + [Trim(line[3..])])
    else if StartsWith(line, "C:") then
      match LeadingNumber(TagValue(line))
      case Some(n) => d.(correctAnswer := Some(n - 1))
      case None => d
    else if StartsWith(line, "E:") then d.(explanation := TagValue(line))
    else if StartsWith(line, "D:") then
      match ParseDifficulty(line[2..])
      case Some(v) => d.(difficulty := v)
      case None => d
    else d
  }

  function ScanQuestionLines(d: QuestionDraft, lines: seq<string>): QuestionDraft
    decreases |lines|
  {
    if |lines| == 0 then d else ScanQuestionLines(ScanQuestionLine(d, lines[0]), lines[1..])
  }

  /** The text of each option line, in order: the line after its `NN:` tag, trimmed. */
  function OptionTexts(lines: seq<string>): (texts: seq<string>)
    ensures |texts| == Count(lines, IsOptionLine)
  {
    if |lines| == 0 then [] else OptionText(lines[0]) + OptionTexts(lines[1..])
  }

  /** The option text one line contributes: none unless it is an option line. */
  function OptionText(line: string): seq<string> {
    if IsOptionLine(line) then [Trim(line[3..])] else []
  }

  function TrimAll(parts: seq<string>): (r: seq<string>)
    ensures |r| == |parts|
    ensures forall k :: 0 <= k < |parts| ==> r[k] == Trim(parts[k])
  {
    seq(|parts|, k requires 0 <= k < |parts| => Trim(parts[k]))
  }

  predicate NonEmpty(s: string) {
    s != []
  }

  /** `text.split("---").map(q => q.trim()).filter(q => q.length)`. */
  function QuestionBlocks(text: string): (blocks: seq<string>)
    ensures forall k :: 0 <= k < |blocks| ==> blocks[k] != []
  {
    Filter(TrimAll(Split(text, Delimiter)), NonEmpty)
  }

  /** `block.split("\n").map(l => l.trim())`. */
  function QuestionLines(block: string): seq<string> {
    TrimAll(Split(block, Newline))
  }

  /** A block yields a question when it has a question, exactly four options
      and an answer key. */
  function ParseQuestion(block: string): (r: Option<QuizQuestion>)
    ensures r.Some? ==> TrimmedNonEmpty(r.value.question) && |r.value.options| == 4
    ensures r.Some? ==> -1 <= r.value.correctAnswer <= 98
  {
    var d := ScanQuestionLines(EmptyQuestion, QuestionLines(block));
    ScanQuestionLinesClean(EmptyQuestion, QuestionLines(block));
    if d.question != [] && |d.options| == 4 && d.correctAnswer.Some? then
      Some(QuizQuestion(d.question, d.options, d.correctAnswer.value, d.explanation, d.difficulty))
    else None
  }

  function CollectQuestions(blocks: seq<string>): (qs: seq<QuizQuestion>)
    ensures |qs| <= |blocks|
    ensures forall k :: 0 <= k < |qs| ==> |qs[k].options| == 4 && TrimmedNonEmpty(qs[k].question)
  {
    if |blocks| == 0 then []
    else
      match ParseQuestion(blocks[0])
      case Some(q) => [q] + CollectQuestions(blocks[1..])
      case None => CollectQuestions(blocks[1..])
  }

  /** `generateQuiz` after the engine has answered with `text`. */
  function ParseQuiz(text: string, numQuestions: int): (qs: seq<QuizQuestion>)
    ensures qs <= CollectQuestions(QuestionBlocks(text))
    ensures numQuestions >= 0 ==> |qs| <= numQuestions
    ensures numQuestions >= 0 && numQuestions <= |CollectQuestions(QuestionBlocks(text))| ==> |qs| == numQuestions
    ensures numQuestions >= |CollectQuestions(QuestionBlocks(text))| ==> qs == CollectQuestions(QuestionBlocks(text))
    ensures numQuestions < 0 ==>
      |qs| == if |CollectQuestions(QuestionBlocks(text))| + numQuestions > 0
              then |CollectQuestions(QuestionBlocks(text))| + numQuestions else 0
    ensures forall k :: 0 <= k < |qs| ==> |qs[k].options| == 4 && TrimmedNonEmpty(qs[k].question)
  {
    JsSlice(CollectQuestions(QuestionBlocks(text)), numQuestions)
  }

  /** One line sets a field iff it carries that field's tag; an option line
      appends its text. */
  lemma ScanQuestionLineStep(d: QuestionDraft, x: string)
    ensures ScanQuestionLine(d, x).question == if IsQuestionLine(x) then TagValue(x) else d.question
    ensures ScanQuestionLine(d, x).correctAnswer ==
      if IsAnswerKeyLine(x) then Some(KeyIndex(x)) else d.correctAnswer
    ensures ScanQuestionLine(d, x).explanation == if IsExplanationLine(x) then TagValue(x) else d.explanation
    ensures ScanQuestionLine(d, x).difficulty ==
      if IsDifficultyLine(x) then ParseDifficulty(x[2..]).value else d.difficulty
  {
    if StartsWith(x, "Q:") {
      assert !IsOptionLine(x) && !StartsWith(x, "C:") && !StartsWith(x, "E:") && !StartsWith(x, "D:");
    } else if IsOptionLine(x) {
      assert !StartsWith(x, "C:") && !StartsWith(x, "E:") && !StartsWith(x, "D:");
    } else if StartsWith(x, "C:") {
      assert !StartsWith(x, "E:") && !StartsWith(x, "D:");
    } else if StartsWith(x, "E:") {
      assert !StartsWith(x, "D:");
    }
  }

  lemma {:induction false} ScanQuestionLinesClean(d: QuestionDraft, lines: seq<string>)
    requires Clean(d.question)
    requires d.correctAnswer.Some? ==> -1 <= d.correctAnswer.value <= 98
    ensures Clean(ScanQuestionLines(d, lines).question)
    ensures var c := ScanQuestionLines(d, lines).correctAnswer; c.Some? ==> -1 <= c.value <= 98
    decreases |lines|
  {
    if |lines| > 0 {
      ScanQuestionLineStep(d, lines[0]);
      ScanQuestionLinesClean(ScanQuestionLine(d, lines[0]), lines[1..]);
    }
  }

  /** Last writer wins for the question of a block. */
  lemma {:induction false} ScanQuestionLinesQuestion(d: QuestionDraft, lines: seq<string>)
    ensures ScanQuestionLines(d, lines).question == LastValue(lines, IsQuestionLine, d.question)
    decreases |lines|
  {
    if |lines| > 0 {
      var x, rest := lines[0], lines[1..];
      assert ScanQuestionLine(d, x).question == (if IsQuestionLine(x) then TagValue(x) else d.question) by {
        ScanQuestionLineStep(d, x);
      }
      ScanQuestionLinesQuestion(ScanQuestionLine(d, x), rest);
      FindLastIndexFront(lines, IsQuestionLine);
    }
  }

  /** Last writer wins for the answer key: the last `C:` line with a leading number. */
  lemma {:induction false} ScanQuestionLinesKey(d: QuestionDraft, lines: seq<string>)
    ensures ScanQuestionLines(d, lines).correctAnswer ==
      match FindLastIndex(lines, IsAnswerKeyLine)
      case None => d.correctAnswer
      case Some(i) => Some(KeyIndex(lines[i]))
    decreases |lines|
  {
    if |lines| > 0 {
      var x, rest := lines[0], lines[1..];
      assert ScanQuestionLine(d, x).correctAnswer == (if IsAnswerKeyLine(x) then Some(KeyIndex(x)) else d.correctAnswer) by {
        ScanQuestionLineStep(d, x);
      }
      ScanQuestionLinesKey(ScanQuestionLine(d, x), rest);
      FindLastIndexFront(lines, IsAnswerKeyLine);
    }
  }

  /** Last writer wins for the explanation. */
  lemma {:induction false} ScanQuestionLinesExplanation(d: QuestionDraft, lines: seq<string>)
    ensures ScanQuestionLines(d, lines).explanation == LastValue(lines, IsExplanationLine, d.explanation)
    decreases |lines|
  {
    if |lines| > 0 {
      var x, rest := lines[0], lines[1..];
      assert ScanQuestionLine(d, x).explanation == (if IsExplanationLine(x) then TagValue(x) else d.explanation) by {
        ScanQuestionLineStep(d, x);
      }
      ScanQuestionLinesExplanation(ScanQuestionLine(d, x), rest);
      FindLastIndexFront(lines, IsExplanationLine);
    }
  }

  /** Last writer wins for the difficulty, among recognised `D:` lines. */
  lemma {:induction false} ScanQuestionLinesDifficulty(d: QuestionDraft, lines: seq<string>)
    ensures ScanQuestionLines(d, lines).difficulty == LastDifficulty(lines, d.difficulty)
    decreases |lines|
  {
    if |lines| > 0 {
      var x, rest := lines[0], lines[1..];
      assert ScanQuestionLine(d, x).difficulty == (if IsDifficultyLine(x) then ParseDifficulty(x[2..]).value else d.difficulty) by {
        ScanQuestionLineStep(d, x);
      }
      ScanQuestionLinesDifficulty(ScanQuestionLine(d, x), rest);
      FindLastIndexFront(lines, IsDifficultyLine);
    }
  }

  /** Options accumulate one per option line, in line order, with the tag
      dropped and the rest trimmed. */
  lemma {:induction false} ScanQuestionLinesOptions(d: QuestionDraft, lines: seq<string>)
    ensures ScanQuestionLines(d, lines).options == d.options + OptionTexts(lines)
    decreases |lines|
  {
    if |lines| > 0 {
      var next := ScanQuestionLine(d, lines[0]);
      ScanQuestionLinesOptions(next, lines[1..]);
      OptionsStep(d, lines);
    }
  }

  /** One step of `ScanQuestionLinesOptions`: the head line adds its own option text, if any. */
  lemma OptionsStep(d: QuestionDraft, lines: seq<string>)
    requires |lines| > 0
    ensures ScanQuestionLine(d, lines[0]).options + OptionTexts(lines[1..]) == d.options + OptionTexts(lines)
  {
    ScanQuestionLineOptions(d, lines[0]);
    OptionTextsFront(lines);
    AppendShift(ScanQuestionLine(d, lines[0]).options, OptionTexts(lines), d.options, OptionText(lines[0]), OptionTexts(lines[1..]));
  }

  lemma AppendShift<T>(s: seq<T>, t: seq<T>, a: seq<T>, b: seq<T>, c: seq<T>)
    requires s == a + b && t == b + c
    ensures s + c == a + t
  {
  }

  lemma OptionTextsFront(lines: seq<string>)
    requires |lines| > 0
    ensures OptionTexts(lines) == OptionText(lines[0]) + OptionTexts(lines[1..])
  {
  }

  /** Only an option line touches the options, and it appends its own text. */
  lemma ScanQuestionLineOptions(d: QuestionDraft, x: string)
    ensures ScanQuestionLine(d, x).options == d.options + OptionText(x)
  {
    if !StartsWith(x, "Q:") && !IsOptionLine(x) {
      assert OptionText(x) == [];
      assert d.options + [] == d.options;
    }
    if StartsWith(x, "Q:") {
      assert !IsOptionLine(x);
      assert d.options + [] == d.options;
    }
  }

  /** A quiz block yields a record iff its last question is non-empty, exactly
      four option lines were seen and some `C:` line supplied a leading
      two-digit number; the record keeps the options in order, takes that number
      minus one as `correctAnswer` with no range check, and defaults the
      explanation to empty and the difficulty to medium. */
  lemma ParseQuestionAccepts(block: string)
    ensures var lines := QuestionLines(block);
      ParseQuestion(block).Some? <==>
        && LastValue(lines, IsQuestionLine, "") != []
        && Count(lines, IsOptionLine) == 4
        && FindLastIndex(lines, IsAnswerKeyLine).Some?
    ensures var lines := QuestionLines(block);
      ParseQuestion(block).Some? ==>
        var key := FindLastIndex(lines, IsAnswerKeyLine).value;
        ParseQuestion(block).value == QuizQuestion(
          LastValue(lines, IsQuestionLine, ""),
          OptionTexts(lines),
          KeyIndex(lines[key]),
          LastValue(lines, IsExplanationLine, ""),
          LastDifficulty(lines, Medium))
  {
    ScanQuestionLinesQuestion(EmptyQuestion, QuestionLines(block));
    ScanQuestionLinesKey(EmptyQuestion, QuestionLines(block));
    ScanQuestionLinesExplanation(EmptyQuestion, QuestionLines(block));
    ScanQuestionLinesDifficulty(EmptyQuestion, QuestionLines(block));
    ScanQuestionLinesOptions(EmptyQuestion, QuestionLines(block));
    assert EmptyQuestion.options + OptionTexts(QuestionLines(block)) == OptionTexts(QuestionLines(block));
  }

  lemma {:induction false} CollectQuestionsAppend(a: seq<string>, b: seq<string>)
    ensures CollectQuestions(a + b) == CollectQuestions(a) + CollectQuestions(b)
    decreases |a|
  {
    if |a| > 0 {
      assert (a + b)[1..] == a[1..] + b;
      assert (a + b)[0] == a[0];
      CollectQuestionsAppend(a[1..], b);
    } else {
      assert a + b == b;
    }
  }

  /** The answer key is the two leading digits, trailing text ignored;
      a single digit is no key. */
  lemma LeadingNumberExamples()
    ensures LeadingNumber("02") == Some(2)
    ensures LeadingNumber("00") == Some(0)
    ensures LeadingNumber("07 text") == Some(7)
    ensures LeadingNumber("4") == None
  {
  }
}
