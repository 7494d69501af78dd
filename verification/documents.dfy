/** Document upload, ingestion and lookup (`backend/controllers/documentController.js`).
    A document is created in the `processing` state and the background
    ingestion moves it to `ready`, with its text and chunks, or to `failed`.
    The PDF extractor and the chunker are opaque: the extractor's outcome is
    an input and the chunker is a function parameter. */
module Documents {

  import opened Base
  import opened Text
  import opened Domain

  /** The multipart upload as the upload middleware describes it. */
  datatype UploadedFile = UploadedFile(path: string, filename: string, originalName: string, size: nat)

  /** `NoTitle` carries the temporary file that is unlinked before refusing. */
  datatype UploadError = NoFile | NoTitle(removedFile: string)

  const DefaultPort: string := "8000"
  const ChunkSize: nat := 500
  const ChunkOverlap: nat := 50

  /** `http://localhost:${process.env.PORT || 8000}/uploads/documents/${filename}`. */
  function FileUrl(port: Option<string>, filename: string): (url: string)
    ensures |url| >= |filename|
  {
    "http://localhost:" + (if Truthy(port) then port.value else DefaultPort) + "/uploads/documents/" + filename
  }

  /** The public URL names the stored file under the documents folder of the
      local server, on the configured port or 8000. */
  lemma FileUrlShape(port: Option<string>, filename: string)
    ensures var p := if Truthy(port) then port.value else DefaultPort;
      var prefix := "http://localhost:" + p + "/uploads/documents/";
      FileUrl(port, filename) == prefix + filename
        && FileUrl(port, filename)[..|prefix|] == prefix
        && FileUrl(port, filename)[|prefix|..] == filename
    ensures !Truthy(port) ==> FileUrl(port, filename) == "http://localhost:8000/uploads/documents/" + filename
  {
  }

  /** `uploadDocument`: refuses a request without a file, then one without a
      title (after removing the uploaded file); otherwise appends a new
      document in the `processing` state. */
  function Upload(docs: seq<Document>, userId: Id, file: Option<UploadedFile>, title: Option<string>,
                  port: Option<string>, newId: Id): (r: Result<(seq<Document>, Document), UploadError>)
    ensures file.None? <==> r == Err(NoFile)
    ensures file.Some? ==> (!Truthy(title) <==> r == Err(NoTitle(file.value.path)))
    ensures r.Err? ==> r == Err(NoFile) || r == Err(NoTitle(file.value.path))
    ensures r.Ok? ==>
      var (after, doc) := r.value;
      && after == docs + [doc]
      && doc.id == newId && doc.userId == userId && doc.title == title.value
      && doc.fileName == file.value.originalName && doc.fileSize == file.value.size
      && doc.filePath == FileUrl(port, file.value.filename)
      && doc.status == Processing
      && doc.extractedText == [] && doc.chunks == [] && doc.lastAccessed.None?
  {
    match file
    case None => Err(NoFile)
    case Some(f) =>
      if !Truthy(title) then Err(NoTitle(f.path))
      else
        var doc := Document(newId, userId, title.value, f.originalName, FileUrl(port, f.filename), f.size,
                            Processing, [], [], None);
        Ok((docs + [doc], doc))
  }

  function HasId(docId: Id): Document -> bool {
    (d: Document) => d.id == docId
  }

  /** `findByIdAndUpdate`: the first document with that id is replaced by
      `f` of it; without one nothing changes. */
  function UpdateById(docs: seq<Document>, docId: Id, f: Document -> Document): (after: seq<Document>)
    ensures |after| == |docs|
    ensures forall k :: 0 <= k < |docs| && docs[k].id != docId ==> after[k] == docs[k]
    ensures (forall k :: 0 <= k < |docs| ==> docs[k].id != docId) ==> after == docs
  {
    match FindIndex(docs, HasId(docId))
    case None => docs
    case Some(i) => docs[i := f(docs[i])]
  }

  /** What ingestion writes on success: text, chunks and `ready` together. */
  function MarkReady(text: string, chunks: seq<Chunk>): Document -> Document {
    (d: Document) => d.(extractedText := text, chunks := chunks, status := Ready)
  }

  /** What ingestion writes on failure: the status alone. */
  function MarkFailed(d: Document): Document {
    d.(status := Failed)
  }

  /** `processPDF`: `extraction` is the extractor's text or its failure and
      `chunkText(text, size, overlap)` is `None` when it throws. */
  function Ingest(docs: seq<Document>, docId: Id, extraction: Option<string>,
                  chunkText: (string, nat, nat) -> Option<seq<Chunk>>): (after: seq<Document>)
    ensures |after| == |docs|
    ensures forall k :: 0 <= k < |docs| && docs[k].id != docId ==> after[k] == docs[k]
    ensures forall k :: 0 <= k < |docs| && docs[k].id == docId && (forall m :: 0 <= m < k ==> docs[m].id != docId) ==>
      if extraction.Some? && chunkText(extraction.value, ChunkSize, ChunkOverlap).Some? then
        after[k] == docs[k].(extractedText := extraction.value,
                             chunks := chunkText(extraction.value, ChunkSize, ChunkOverlap).value,
                             status := Ready)
      else
        after[k] == docs[k].(status := Failed)
  {
    var outcome: Option<(string, seq<Chunk>)> :=
      match extraction
      case None => None
      case Some(text) =>
        match chunkText(text, ChunkSize, ChunkOverlap)
        case None => None
        case Some(chunks) => Some((text, chunks));
    match outcome
    case Some((text, chunks)) => UpdateById(docs, docId, MarkReady(text, chunks))
    case None => UpdateById(docs, docId, MarkFailed)
  }

  /** An uploaded document leaves `processing` with its ingestion: it is then
      `ready` with exactly the extracted text and its chunks, or `failed` with
      no text and no chunks. */
  lemma UploadThenIngest(docs: seq<Document>, userId: Id, file: UploadedFile, title: string, port: Option<string>,
                         newId: Id, extraction: Option<string>, chunkText: (string, nat, nat) -> Option<seq<Chunk>>)
    requires title != []
    requires forall k :: 0 <= k < |docs| ==> docs[k].id != newId
    ensures var (uploaded, doc) := Upload(docs, userId, Some(file), Some(title), port, newId).value;
      var after := Ingest(uploaded, newId, extraction, chunkText);
      && |after| == |docs| + 1
      && after[..|docs|] == docs
      && after[|docs|].status != Processing
      && (after[|docs|].status == Ready <==>
            extraction.Some? && chunkText(extraction.value, ChunkSize, ChunkOverlap).Some?)
      && (after[|docs|].status == Ready ==>
            after[|docs|].extractedText == extraction.value
            && after[|docs|].chunks == chunkText(extraction.value, ChunkSize, ChunkOverlap).value)
      && (after[|docs|].status == Failed ==> after[|docs|].extractedText == [] && after[|docs|].chunks == [])
  {
    var (uploaded, doc) := Upload(docs, userId, Some(file), Some(title), port, newId).value;
    var after := Ingest(uploaded, newId, extraction, chunkText);
    assert uploaded[|docs|] == doc;
    assert forall m :: 0 <= m < |docs| ==> uploaded[m].id != newId;
    assert forall m :: 0 <= m < |docs| ==> after[m] == uploaded[m];
  }

  datatype NotFound = DocumentNotFound

  /** A document together with the counts reported beside it. */
  datatype DocumentDetails = DocumentDetails(document: Document, flashcardCount: nat, quizCount: nat)

  function OwnedDocument(docId: Id, userId: Id): Document -> bool {
    (d: Document) => d.id == docId && d.userId == userId
  }

  function SetFor(docId: Id, userId: Id): FlashcardSet -> bool {
    (s: FlashcardSet) => s.documentId == docId && s.userId == userId
  }

  function QuizFor(docId: Id, userId: Id): Quiz -> bool {
    (q: Quiz) => q.documentId == docId && q.userId == userId
  }

  /** `getDocumentById`: the user's document, stamped with the access time,
      with the number of that user's flashcard sets and quizzes for it. */
  function GetDocumentById(docs: seq<Document>, sets: seq<FlashcardSet>, quizzes: seq<Quiz>,
                           userId: Id, docId: Id, now: Time): (r: Result<(seq<Document>, DocumentDetails), NotFound>)
    ensures r.Err? <==> forall k :: 0 <= k < |docs| ==> !OwnedDocument(docId, userId)(docs[k])
    ensures r.Ok? ==>
      var (after, details) := r.value;
      && |after| == |docs|
      && (exists i :: 0 <= i < |docs| && OwnedDocument(docId, userId)(docs[i])
            && details.document == docs[i].(lastAccessed := Some(now))
            && after == docs[i := details.document])
      && details.flashcardCount == Count(sets, SetFor(docId, userId))
      && details.quizCount == Count(quizzes, QuizFor(docId, userId))
  {
    match FindIndex(docs, OwnedDocument(docId, userId))
    case None => Err(DocumentNotFound)
    case Some(i) =>
      var doc := docs[i].(lastAccessed := Some(now));
      Ok((docs[i := doc], DocumentDetails(doc, Count(sets, SetFor(docId, userId)), Count(quizzes, QuizFor(docId, userId)))))
  }

  /** A listed document: the stored fields without the text and the chunks,
      plus the sizes of the joined flashcard sets and quizzes. */
  datatype DocumentSummary = DocumentSummary(
    id: Id,
    userId: Id,
    title: string,
    fileName: string,
    filePath: string,
    fileSize: nat,
    status: DocStatus,
    lastAccessed: Option<Time>,
    flashcardCount: nat,
    quizCount: nat)

  function SetOfDocument(docId: Id): FlashcardSet -> bool {
    (s: FlashcardSet) => s.documentId == docId
  }

  function QuizOfDocument(docId: Id): Quiz -> bool {
    (q: Quiz) => q.documentId == docId
  }

  function DocumentOf(userId: Id): Document -> bool {
    (d: Document) => d.userId == userId
  }

  /** The `$lookup`, `$addFields` and `$project` stages for one document: the
      joins match on the document id alone. */
  function Summarize(d: Document, sets: seq<FlashcardSet>, quizzes: seq<Quiz>): (summary: DocumentSummary)
    ensures summary.id == d.id && summary.userId == d.userId && summary.title == d.title
    ensures summary.fileName == d.fileName && summary.filePath == d.filePath && summary.fileSize == d.fileSize
    ensures summary.status == d.status && summary.lastAccessed == d.lastAccessed
    ensures summary.flashcardCount == Count(sets, SetOfDocument(d.id))
    ensures summary.quizCount == Count(quizzes, QuizOfDocument(d.id))
  {
    DocumentSummary(d.id, d.userId, d.title, d.fileName, d.filePath, d.fileSize, d.status, d.lastAccessed,
                    Count(sets, SetOfDocument(d.id)), Count(quizzes, QuizOfDocument(d.id)))
  }

  /** `getDocuments` without the final sort: one summary per document of the
      user, each with the sizes of its joined flashcard sets and quizzes. */
  function GetDocuments(docs: seq<Document>, sets: seq<FlashcardSet>, quizzes: seq<Quiz>, userId: Id)
    : (list: seq<DocumentSummary>)
    ensures |list| == Count(docs, DocumentOf(userId))
    ensures forall k :: 0 <= k < |list| ==> list[k].userId == userId
    ensures forall k :: 0 <= k < |list| ==>
      && list[k].flashcardCount == Count(sets, SetOfDocument(list[k].id))
      && list[k].quizCount == Count(quizzes, QuizOfDocument(list[k].id))
  {
    var mine := Filter(docs, DocumentOf(userId));
    seq(|mine|, k requires 0 <= k < |mine| => Summarize(mine[k], sets, quizzes))
  }

  /** Every document of the user is listed, with its fields and counts. */
  lemma GetDocumentsComplete(docs: seq<Document>, sets: seq<FlashcardSet>, quizzes: seq<Quiz>, userId: Id)
    ensures forall m :: 0 <= m < |docs| && docs[m].userId == userId ==>
      Summarize(docs[m], sets, quizzes) in GetDocuments(docs, sets, quizzes, userId)
  {
    var mine := Filter(docs, DocumentOf(userId));
    var list := GetDocuments(docs, sets, quizzes, userId);
    forall m | 0 <= m < |docs| && docs[m].userId == userId
      ensures Summarize(docs[m], sets, quizzes) in list
    {
      FilterKeeps(docs, DocumentOf(userId), m);
      var k :| 0 <= k < |mine| && mine[k] == docs[m];
      assert list[k] == Summarize(mine[k], sets, quizzes);
    }
  }

  /** Every entry of the list summarizes a document of the user. */
  lemma GetDocumentsSound(docs: seq<Document>, sets: seq<FlashcardSet>, quizzes: seq<Quiz>, userId: Id)
    ensures var list := GetDocuments(docs, sets, quizzes, userId);
      forall k :: 0 <= k < |list| ==>
        exists m :: 0 <= m < |docs| && docs[m].userId == userId && list[k] == Summarize(docs[m], sets, quizzes)
  {
    var mine := Filter(docs, DocumentOf(userId));
    var list := GetDocuments(docs, sets, quizzes, userId);
    forall k | 0 <= k < |list|
      ensures exists m :: 0 <= m < |docs| && docs[m].userId == userId && list[k] == Summarize(docs[m], sets, quizzes)
    {
      assert mine[k] in docs;
      var m :| 0 <= m < |docs| && docs[m] == mine[k];
      assert list[k] == Summarize(docs[m], sets, quizzes);
    }
  }

  /** The list and the detail view agree on a document's fields, and the
      list's counts, which ignore the owner, are never below the detail's;
      they coincide when all sets and quizzes of the document are the user's. */
  lemma ListedCountsBoundDetail(docs: seq<Document>, sets: seq<FlashcardSet>, quizzes: seq<Quiz>,
                                userId: Id, docId: Id, now: Time, k: nat)
    requires k < |GetDocuments(docs, sets, quizzes, userId)| && GetDocuments(docs, sets, quizzes, userId)[k].id == docId
    ensures GetDocumentById(docs, sets, quizzes, userId, docId, now).Ok?
    ensures var details := GetDocumentById(docs, sets, quizzes, userId, docId, now).value.1;
      var summary := GetDocuments(docs, sets, quizzes, userId)[k];
      && details.flashcardCount <= summary.flashcardCount
      && details.quizCount <= summary.quizCount
    ensures (forall j :: 0 <= j < |sets| && sets[j].documentId == docId ==> sets[j].userId == userId) ==>
      GetDocumentById(docs, sets, quizzes, userId, docId, now).value.1.flashcardCount
        == GetDocuments(docs, sets, quizzes, userId)[k].flashcardCount
    ensures (forall j :: 0 <= j < |quizzes| && quizzes[j].documentId == docId ==> quizzes[j].userId == userId) ==>
      GetDocumentById(docs, sets, quizzes, userId, docId, now).value.1.quizCount
        == GetDocuments(docs, sets, quizzes, userId)[k].quizCount
  {
    var mine := Filter(docs, DocumentOf(userId));
    assert mine[k] in docs;
    var m :| 0 <= m < |docs| && docs[m] == mine[k];
    assert OwnedDocument(docId, userId)(docs[m]);
    CountImplies(sets, SetFor(docId, userId), SetOfDocument(docId));
    CountImplies(quizzes, QuizFor(docId, userId), QuizOfDocument(docId));
    if forall j :: 0 <= j < |sets| && sets[j].documentId == docId ==> sets[j].userId == userId {
      CountImplies(sets, SetOfDocument(docId), SetFor(docId, userId));
    }
    if forall j :: 0 <= j < |quizzes| && quizzes[j].documentId == docId ==> quizzes[j].userId == userId {
      CountImplies(quizzes, QuizOfDocument(docId), QuizFor(docId, userId));
    }
  }

  /** `deleteDocument`: removes the user's document and names the path handed
      to `fs.unlink`, which is the stored `filePath` (the public URL). The
      document's flashcard sets and quizzes are not removed. */
  function DeleteDocument(docs: seq<Document>, userId: Id, docId: Id): (r: Result<(seq<Document>, string), NotFound>)
    ensures r.Err? <==> forall k :: 0 <= k < |docs| ==> !OwnedDocument(docId, userId)(docs[k])
    ensures r.Ok? ==>
      exists i :: 0 <= i < |docs| && OwnedDocument(docId, userId)(docs[i])
        && r.value == (docs[..i] + docs[i + 1..], docs[i].filePath)
  {
    match FindIndex(docs, OwnedDocument(docId, userId))
    case None => Err(DocumentNotFound)
    case Some(i) => Ok((docs[..i] + docs[i + 1..], docs[i].filePath))
  }

  /** Deleting a freshly uploaded document undoes the upload, and the name
      handed to `fs.unlink` is the public URL, not the stored file's path. */
  lemma UploadThenDelete(docs: seq<Document>, userId: Id, file: UploadedFile, title: string, port: Option<string>,
                         newId: Id)
    requires title != []
    requires forall k :: 0 <= k < |docs| ==> docs[k].id != newId
    ensures var (uploaded, _) := Upload(docs, userId, Some(file), Some(title), port, newId).value;
      DeleteDocument(uploaded, userId, newId) == Ok((docs, FileUrl(port, file.filename)))
    ensures StartsWith(FileUrl(port, file.filename), "http://localhost:")
  {
    var (uploaded, doc) := Upload(docs, userId, Some(file), Some(title), port, newId).value;
    assert uploaded == docs + [doc] && doc.id == newId && doc.userId == userId;
    assert forall k :: 0 <= k < |docs| ==> uploaded[k] == docs[k];
    assert OwnedDocument(newId, userId)(uploaded[|docs|]);
    assert FindIndex(uploaded, OwnedDocument(newId, userId)) == Some(|docs|);
    assert uploaded[..|docs|] + uploaded[|docs| + 1..] == docs;
    UrlIsLocal(port, file.filename);
  }

  lemma UrlIsLocal(port: Option<string>, filename: string)
    ensures StartsWith(FileUrl(port, filename), "http://localhost:")
  {
    FileUrlShape(port, filename);
  }
}
