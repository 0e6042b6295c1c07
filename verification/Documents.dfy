/**
 The document_extractions table and the service that fills it
 (backend/documents/repository.py, backend/documents/ingestion_service.py).
 Rows are never deleted, so the row at position p has id p + 1.
 */
module Documents {
  import opened DocumentErrors
  import opened Extraction
  import opened Options
  import opened Sorting
  import opened Text
  import ContentValidation

  datatype Status = Processing | Extracted | Failed

  /** The columns written when a row is created. */
  datatype Origin = Origin(
    requestId: string, filename: string, extension: string, size: nat, contentSha: string,
    markitdownVersion: string, createdBy: int, createdAt: string)

  /** The columns `mark_extracted` writes. */
  datatype Findings = Findings(
    mediaType: string, text: string, textSha: string, characterCount: nat, warnings: seq<string>)

  datatype Row = Row(
    origin: Origin, how: string, retained: bool,
    mediaType: Option<string>, text: Option<string>, textSha: Option<string>,
    characterCount: Option<nat>, warnings: seq<string>,
    status: Status, error: Option<string>)

  datatype Event =
    | Create(origin: Origin)
    | MarkExtracted(id: int, findings: Findings)
    | MarkFailed(id: int, summary: string)

  datatype Reply = Accepted(id: int) | NotFound | NotProcessing

  // ---------------------------------------------------------------- transitions

  function NewRow(origin: Origin): Row {
    Row(origin, "markitdown", false, None, None, None, None, [], Processing, None)
  }

  function Finish(row: Row, f: Findings): Row {
    row.(mediaType := Some(f.mediaType), text := Some(f.text), textSha := Some(f.textSha),
         characterCount := Some(f.characterCount), warnings := f.warnings, status := Extracted)
  }

  function Fail(row: Row, summary: string): Row {
    row.(error := Some(summary), status := Failed)
  }

  predicate Exists(rows: seq<Row>, id: int) {
    1 <= id <= |rows|
  }

  function ReplyTo(rows: seq<Row>, e: Event): Reply {
    if e.Create? then Accepted(|rows| + 1)
    else if !Exists(rows, e.id) then NotFound
    else if rows[e.id - 1].status != Processing then NotProcessing
    else Accepted(e.id)
  }

  function Step(rows: seq<Row>, e: Event): seq<Row> {
    if !ReplyTo(rows, e).Accepted? then rows
    else
      match e
      case Create(origin) => rows + [NewRow(origin)]
      case MarkExtracted(id, f) => rows[id - 1 := Finish(rows[id - 1], f)]
      case MarkFailed(id, summary) => rows[id - 1 := Fail(rows[id - 1], summary)]
  }

  function Run(rows: seq<Row>, es: seq<Event>): seq<Row>
    decreases |es|
  {
    if es == [] then rows else Run(Step(rows, es[0]), es[1..])
  }

  // ------------------------------------------------------------------ lifecycle

  /** The columns are null or set exactly as the status says. */
  predicate RowOk(row: Row) {
    && row.how == "markitdown" && !row.retained
    && (row.text.Some? <==> row.status == Extracted)
    && (row.mediaType.Some? <==> row.status == Extracted)
    && (row.textSha.Some? <==> row.status == Extracted)
    && (row.characterCount.Some? <==> row.status == Extracted)
    && (row.error.Some? <==> row.status == Failed)
    && (row.status != Extracted ==> row.warnings == [])
  }

  ghost predicate RowsOk(rows: seq<Row>) {
    forall i :: 0 <= i < |rows| ==> RowOk(rows[i])
  }

  /** What may become of a row: nothing once it is terminal, and never another origin. */
  predicate Evolves(before: Row, after: Row) {
    && after.origin == before.origin
    && (before.status != Processing ==> after == before)
  }

  ghost predicate AllEvolve(before: seq<Row>, after: seq<Row>) {
    |before| <= |after| && forall i :: 0 <= i < |before| ==> Evolves(before[i], after[i])
  }

  lemma StepKeepsRows(rows: seq<Row>, e: Event)
    requires RowsOk(rows)
    ensures RowsOk(Step(rows, e)) && AllEvolve(rows, Step(rows, e))
  {
  }

  lemma {:induction false} RunKeepsRows(rows: seq<Row>, es: seq<Event>)
    requires RowsOk(rows)
    ensures RowsOk(Run(rows, es)) && AllEvolve(rows, Run(rows, es))
    decreases |es|
  {
    if es != [] {
      var next := Step(rows, es[0]);
      StepKeepsRows(rows, es[0]);
      RunKeepsRows(next, es[1..]);
      assert forall i :: 0 <= i < |rows| ==> Evolves(rows[i], next[i]) && Evolves(next[i], Run(next, es[1..])[i]);
    }
  }

  predicate Marks(e: Event, id: int) {
    !e.Create? && e.id == id
  }

  /** How often a run's attempts to finish the row with this id succeed. */
  function AcceptedMarks(rows: seq<Row>, es: seq<Event>, id: int): nat
    decreases |es|
  {
    if es == [] then 0
    else
      (if Marks(es[0], id) && ReplyTo(rows, es[0]).Accepted? then 1 else 0)
      + AcceptedMarks(Step(rows, es[0]), es[1..], id)
  }

  /** A row reaches a terminal status at most once in a run, and then exactly once. */
  lemma {:induction false} FinishedOnce(rows: seq<Row>, es: seq<Event>, id: int)
    requires RowsOk(rows)
    requires Exists(Run(rows, es), id)
    ensures AcceptedMarks(rows, es, id)
         == (if Run(rows, es)[id - 1].status != Processing then 1 else 0)
          - (if Exists(rows, id) && rows[id - 1].status != Processing then 1 else 0)
    decreases |es|
  {
    if es != [] {
      var next := Step(rows, es[0]);
      StepKeepsRows(rows, es[0]);
      RunKeepsRows(next, es[1..]);
      FinishedOnce(next, es[1..], id);
    }
  }

  /** What others do leaves a row that only its own ingestion marks as it was created. */
  lemma {:induction false} Untouched(rows: seq<Row>, es: seq<Event>, id: int)
    requires Exists(rows, id)
    requires forall i :: 0 <= i < |es| ==> !Marks(es[i], id)
    ensures Exists(Run(rows, es), id) && Run(rows, es)[id - 1] == rows[id - 1]
    decreases |es|
  {
    if es != [] {
      assert !Marks(es[0], id);
      Untouched(Step(rows, es[0]), es[1..], id);
    }
  }

  // ------------------------------------------------------------------- ingestion

  datatype Upload = Upload(
    content: seq<bv8>, filename: string, requestId: string, contentSha: string,
    markitdownVersion: string, createdBy: int, createdAt: string)

  /** The extension as the name claims it, before anything is validated. */
  function ClaimedExtension(filename: string): string {
    ContentValidation.ExtractExtension(filename)
  }

  function OriginOf(u: Upload): Origin {
    Origin(u.requestId, u.filename, ClaimedExtension(u.filename), |u.content|, u.contentSha,
           u.markitdownVersion, u.createdBy, u.createdAt)
  }

  function Outcome(u: Upload, w: World): Attempt<Result> {
    ExtractDocument(u.filename, |u.content|, w)
  }

  function FindingsOf(r: Result): Findings {
    Findings(r.mediaType, r.text, r.textSha, r.characterCount, r.warnings)
  }

  /** What becomes of a new row once the extraction has answered. */
  function RowAfter(origin: Origin, outcome: Attempt<Result>): Row {
    match outcome
    case Crashed => NewRow(origin)
    case Refused(e) => Fail(NewRow(origin), Summary(e))
    case Done(r) => Finish(NewRow(origin), FindingsOf(r))
  }

  /**
   A commit happens, or the write raises and is rolled back with its connection; the repository
   maps SQLite's own errors to `DocumentPersistenceError` and lets all others through.
   */
  datatype Commit = Committed | Lost(mapped: bool)

  /** What the database does during one ingestion: creating the row, marking it, reading it back. */
  datatype Disk = Disk(create: Commit, mark: Commit, reread: Commit)

  /** The row one ingestion leaves behind, once it has created one. */
  function IngestedRow(u: Upload, w: World, disk: Disk): Row {
    if disk.mark.Lost? then NewRow(OriginOf(u)) else RowAfter(OriginOf(u), Outcome(u, w))
  }

  function Raised<T>(mapped: bool): Attempt<T> {
    if mapped then Refused(Persistence) else Crashed
  }

  /** What the caller of one ingestion is told. */
  function IngestReply(u: Upload, w: World, disk: Disk, id: int): Attempt<int> {
    if disk.create.Lost? then Raised(disk.create.mapped)
    else if Outcome(u, w).Crashed? then Crashed
    else if disk.mark.Lost? then Raised(disk.mark.mapped)
    else if disk.reread.Lost? then Raised(disk.reread.mapped)
    else if Outcome(u, w).Refused? then Refused(Outcome(u, w).error)
    else Done(id)
  }

  /** The mark with which an ingestion ends, None when it crashes. */
  function Ending(outcome: Attempt<Result>, id: int): Option<Event> {
    match outcome
    case Crashed => None
    case Refused(e) => Some(MarkFailed(id, Summary(e)))
    case Done(r) => Some(MarkExtracted(id, FindingsOf(r)))
  }

  lemma EndingFinishes(rows: seq<Row>, id: int, origin: Origin, outcome: Attempt<Result>)
    requires Exists(rows, id) && rows[id - 1] == NewRow(origin)
    ensures match Ending(outcome, id)
            case None => rows[id - 1] == RowAfter(origin, outcome)
            case Some(mark) => && ReplyTo(rows, mark) == Accepted(id)
                               && Step(rows, mark) == rows[id - 1 := RowAfter(origin, outcome)]
  {
  }

  /**
   Whatever other requests commit between an ingestion's two commits, its mark is accepted, its
   own row ends as if it had run alone, and no other row is affected by it.
   */
  lemma IngestionAmongOthers(rows: seq<Row>, u: Upload, w: World, disk: Disk, es: seq<Event>)
    requires RowsOk(rows) && disk.mark.Committed?
    requires forall i :: 0 <= i < |es| ==> !Marks(es[i], |rows| + 1)
    ensures var id := |rows| + 1;
            var between := Run(Step(rows, Create(OriginOf(u))), es);
            && Exists(between, id)
            && match Ending(Outcome(u, w), id)
               case None => between[id - 1] == IngestedRow(u, w, disk)
               case Some(mark) => && ReplyTo(between, mark) == Accepted(id)
                                  && Step(between, mark) == between[id - 1 := IngestedRow(u, w, disk)]
  {
    var created := Step(rows, Create(OriginOf(u)));
    Untouched(created, es, |rows| + 1);
    EndingFinishes(Run(created, es), |rows| + 1, OriginOf(u), Outcome(u, w));
  }

  /** The columns that say whose upload this was. */
  ghost predicate Records(origin: Origin, u: Upload) {
    && origin.requestId == u.requestId && origin.filename == u.filename
    && origin.extension == ClaimedExtension(u.filename) && origin.size == |u.content|
    && origin.contentSha == u.contentSha && origin.markitdownVersion == u.markitdownVersion
    && origin.createdBy == u.createdBy && origin.createdAt == u.createdAt
  }

  /** The upload is refused as `e`: by the first guard it fails, or by its conversion. */
  ghost predicate Failure(u: Upload, w: World, e: Error) {
    || ContentValidation.GuardFailure(u.filename, |u.content|, w.detection, w.zip, e)
    || (ContentValidation.Acceptable(u.filename, |u.content|, w.detection, w.zip, ClaimedExtension(u.filename))
        && ConversionFailure(ClaimedExtension(u.filename), w, e))
  }

  /** Where the text of an extracted row is from: the converter, or else every page in order. */
  ghost predicate TextFrom(row: Row, w: World)
    requires row.text.Some?
  {
    && w.conversion.Converted?
    && if !Meaningless(w.conversion.text) then row.text == w.conversion.text && row.warnings == []
       else
         && w.engine.Opened? && w.engine.pages.Some? && w.engine.version.Some?
         && ReadsPages(w.engine.pages.value, row.text.value)
         && |row.warnings| == 5 && row.warnings[2] == "ocr_engine_version=" + w.engine.version.value
         && row.warnings[4] == "ocr_page_count=" + NatToString(|w.engine.pages.value|)
  }

  /** A refused upload ends as a failed row with the code of its reason. */
  lemma FailureStored(u: Upload, w: World, disk: Disk, e: Error)
    requires Failure(u, w, e) && disk.mark.Committed?
    ensures var row := IngestedRow(u, w, disk);
      && row.status == Failed
      && row.error == Some(match e
           case UnsupportedExtension => "unsupported_document_format"
           case EmptyDocument => "empty_document"
           case DocumentTooLarge => "document_too_large"
           case ContentTypeMismatch => "content_type_mismatch"
           case MalformedOOXML => "malformed_ooxml"
           case SuspiciousArchive => "suspicious_archive"
           case EmptyExtraction => "empty_extraction"
           case MissingDependency => "missing_document_dependency"
           case OCRUnavailable => "ocr_unavailable"
           case OCRTimeout => "ocr_timeout"
           case OCRFailed => "ocr_failed"
           case OCREmpty => "ocr_empty"
           case OCRPageLimit => "ocr_page_limit"
           case _ => "extraction_failed")
  {
    RefusedExactly(u.filename, |u.content|, w, e);
  }

  /** What extraction found, as an extracted row holds it. */
  ghost predicate Holds(row: Row, u: Upload, w: World) {
    && row.text.Some? && !Meaningless(row.text) && TextFrom(row, w)
    && row.textSha == Some(w.hashText(row.text.value)) && row.characterCount == Some(|row.text.value|)
    && ContentValidation.Acceptable(u.filename, |u.content|, w.detection, w.zip, row.origin.extension)
    && row.mediaType.Some? && "." + row.mediaType.value == row.origin.extension
  }

  lemma FoundIsHeld(u: Upload, w: World)
    requires Outcome(u, w).Done?
    ensures Holds(RowAfter(OriginOf(u), Outcome(u, w)), u, w)
  {
    ExtractedTextIsReal(u.filename, |u.content|, w);
    ContentValidation.SuffixIsExtension(u.filename, Outcome(u, w).value.extension);
  }

  lemma FailsExactly(u: Upload, w: World)
    ensures Outcome(u, w).Refused? <==> exists e :: Failure(u, w, e)
  {
    forall e ensures Failure(u, w, e) <==> Outcome(u, w) == Refused(e) {
      RefusedExactly(u.filename, |u.content|, w, e);
    }
  }

  /**
   The row an ingestion leaves stays processing exactly when a call outside every handler fails
   or its mark is not committed. Otherwise it is extracted, with text that says something, hashed
   and counted as stored, or failed, exactly when a guard or the conversion refuses the upload.
   */
  lemma IngestedRowMeaning(u: Upload, w: World, disk: Disk)
    ensures var row := IngestedRow(u, w, disk);
      && RowOk(row) && Records(row.origin, u)
      && (row.status == Processing <==> Breaks(u.filename, |u.content|, w) || disk.mark.Lost?)
      && (row.status == Extracted ==> Holds(row, u, w))
      && (row.status == Failed <==> disk.mark.Committed? && exists e :: Failure(u, w, e))
  {
    CrashesExactly(u.filename, |u.content|, w);
    FailsExactly(u, w);
    if Outcome(u, w).Done? { FoundIsHeld(u, w); }
  }

  /**
   A caller told of success has an extracted row, and one told of an extraction's own error a
   failed row with its code. The converse fails only when reading the marked row back does.
   */
  lemma ReplyMatchesRow(u: Upload, w: World, disk: Disk, id: int)
    requires disk.create.Committed?
    ensures var reply, row := IngestReply(u, w, disk, id), IngestedRow(u, w, disk);
      && (reply.Done? <==> row.status == Extracted && disk.reread.Committed?)
      && (reply.Done? ==> reply.value == id)
      && (row.status == Failed && disk.reread.Committed? ==> reply.Refused? && Failure(u, w, reply.error))
      && (Breaks(u.filename, |u.content|, w) ==> reply.Crashed?)
      && (!Breaks(u.filename, |u.content|, w) && (disk.mark.Lost? || disk.reread.Lost?) ==>
            reply == if (if disk.mark.Lost? then disk.mark.mapped else disk.reread.mapped)
                     then Refused(Persistence) else Crashed)
  {
    CrashesExactly(u.filename, |u.content|, w);
    if Outcome(u, w).Refused? { RefusedExactly(u.filename, |u.content|, w, Outcome(u, w).error); }
  }

  lemma KeepsMethod(rows: seq<Row>, id: int, es: seq<Event>)
    requires RowsOk(rows) && Exists(rows, id)
    ensures Exists(Run(rows, es), id)
    ensures Run(rows, es)[id - 1].how == "markitdown" && Run(rows, es)[id - 1].origin == rows[id - 1].origin
  {
    RunKeepsRows(rows, es);
    assert Evolves(rows[id - 1], Run(rows, es)[id - 1]);
  }

  lemma MethodFound(u: Upload, w: World)
    ensures Outcome(u, w).Done? ==> (Outcome(u, w).value.how == "markitdown" <==> !Meaningless(w.conversion.text))
  {
    ExtractedTextIsReal(u.filename, |u.content|, w);
  }

  /**
   The column naming the method is never rewritten: in the row an ingestion leaves it keeps its
   first value whatever happens later, and so agrees with how that ingestion really obtained the
   text exactly when the conversion said something.
   */
  lemma MethodColumnExactly(rows: seq<Row>, id: int, u: Upload, w: World, disk: Disk, es: seq<Event>)
    requires RowsOk(rows) && Exists(rows, id) && rows[id - 1] == IngestedRow(u, w, disk)
    ensures Exists(Run(rows, es), id)
    ensures var row := Run(rows, es)[id - 1];
      && Records(row.origin, u) && row.how == "markitdown"
      && (Outcome(u, w).Done? ==> (row.how == Outcome(u, w).value.how <==> !Meaningless(w.conversion.text)))
  {
    KeepsMethod(rows, id, es);
    MethodFound(u, w);
    assert Records(rows[id - 1].origin, u) by { IngestedRowMeaning(u, w, disk); }
  }

  /** A one-page scan that MarkItDown has no text for, and on which OCR reads these letters. */
  function ScannedUpload(): Upload {
    Upload([0], "a.pdf", "", "", "", 1, "")
  }

  function ScannedWorld(text: string): World {
    World(ContentValidation.Detected("pdf"), ContentValidation.NotAZip, Converted(None),
          Opened(Some([Recognised(text)]), Some("5"), true), _ => true, s => s, _ => true, true)
  }

  /** What OCR read is stored as text MarkItDown extracted. */
  lemma OcrTextIsMislabelled(text: string)
    requires |text| >= MIN_MEANINGFUL_OCR_CHARS && forall i :: 0 <= i < |text| ==> !IsSpace(text[i])
    ensures var u, w, disk := ScannedUpload(), ScannedWorld(text), Disk(Committed, Committed, Committed);
      && IngestedRow(u, w, disk).text == Some(text) && IngestedRow(u, w, disk).how == "markitdown"
      && Outcome(u, w).Done? && Outcome(u, w).value.how == "markitdown+ocr"
  {
    var u, w := ScannedUpload(), ScannedWorld(text);
    OcrReadsVisiblePage(text, "5", w.printable);
    ScanIsAcceptable();
    ScannedPageExtracted(u, w, text);
  }

  /** An accepted PDF whose conversion says nothing and whose pages OCR reads. */
  lemma ScannedPageExtracted(u: Upload, w: World, text: string)
    requires ContentValidation.Acceptable(u.filename, |u.content|, w.detection, w.zip, ".pdf")
    requires w.conversion == Converted(None) && Ocr(w.engine, w.printable) == Done(text) && Reportable(w, text)
    ensures Outcome(u, w).Done? && Outcome(u, w).value.how == "markitdown+ocr" && Outcome(u, w).value.text == text
  {
    ContentValidation.AcceptableIsAccepted(u.filename, |u.content|, w.detection, w.zip, ".pdf");
  }

  lemma ScanIsAcceptable()
    ensures ContentValidation.Acceptable("a.pdf", 1, ContentValidation.Detected("pdf"),
                                         ContentValidation.NotAZip, ".pdf")
  {
    assert Lower("a.pdf") == "a.pdf";
    assert ContentValidation.ExpectedLabel(".pdf") == "pdf";
  }

  // ------------------------------------------------------------------- the table

  class DocumentStore {
    var rows: seq<Row>

    ghost predicate Valid()
      reads this
    {
      RowsOk(rows)
    }

    constructor ()
      ensures Valid() && rows == []
    {
      rows := [];
    }

    /** None when the write raised and was rolled back. */
    method CreateProcessingRecord(origin: Origin, disk: Commit) returns (id: Option<int>)
      requires Valid()
      modifies this
      ensures Valid() && rows == if disk.Lost? then old(rows) else Step(old(rows), Create(origin))
      ensures id == if disk.Lost? then None else Some(|old(rows)| + 1)
    {
      if disk.Lost? { return None; }
      var row := Row(origin, "markitdown", false, None, None, None, None, [], Processing, None);
      rows := rows + [row];
      id := Some(|rows|);
    }

    /** `_fetch_by_id` followed by the status guard. */
    method Guard(id: int) returns (reply: Reply)
      ensures Exists(rows, id) ==>
                reply == if rows[id - 1].status == Processing then Accepted(id) else NotProcessing
      ensures !Exists(rows, id) ==> reply == NotFound
    {
      if id < 1 || id > |rows| { return NotFound; }
      if rows[id - 1].status != Processing { return NotProcessing; }
      return Accepted(id);
    }

    method MarkExtracted(id: int, findings: Findings, disk: Commit) returns (reply: Reply)
      requires Valid()
      modifies this
      ensures Valid()
      ensures rows == if disk.Lost? then old(rows) else Step(old(rows), Event.MarkExtracted(id, findings))
      ensures reply == ReplyTo(old(rows), Event.MarkExtracted(id, findings))
    {
      reply := Guard(id);
      if !reply.Accepted? || disk.Lost? { return; }
      var row := rows[id - 1];
      row := row.(mediaType := Some(findings.mediaType), text := Some(findings.text));
      row := row.(textSha := Some(findings.textSha), characterCount := Some(findings.characterCount));
      rows := rows[id - 1 := row.(warnings := findings.warnings, status := Extracted)];
    }

    method MarkFailed(id: int, summary: string, disk: Commit) returns (reply: Reply)
      requires Valid()
      modifies this
      ensures Valid()
      ensures rows == if disk.Lost? then old(rows) else Step(old(rows), Event.MarkFailed(id, summary))
      ensures reply == ReplyTo(old(rows), Event.MarkFailed(id, summary))
    {
      reply := Guard(id);
      if !reply.Accepted? || disk.Lost? { return; }
      rows := rows[id - 1 := rows[id - 1].(error := Some(summary), status := Failed)];
    }

    /**
     One upload: exactly one new row once it could be created, which ends as what the extraction
     answered unless its mark is lost; all other rows are untouched.
     */
    method IngestDocument(upload: Upload, w: World, disk: Disk) returns (r: Attempt<int>)
      requires Valid()
      modifies this
      ensures Valid()
      ensures rows == if disk.create.Lost? then old(rows) else old(rows) + [IngestedRow(upload, w, disk)]
      ensures r == IngestReply(upload, w, disk, |old(rows)| + 1)
      ensures disk.create.Lost? ==> r == if disk.create.mapped then Refused(Persistence) else Crashed
    {
      var origin := Origin(upload.requestId, upload.filename, ClaimedExtension(upload.filename),
                           |upload.content|, upload.contentSha, upload.markitdownVersion,
                           upload.createdBy, upload.createdAt);
      var created := CreateProcessingRecord(origin, disk.create);
      if created.None? { return Raised(disk.create.mapped); }
      var id := created.value;
      var outcome := ExtractDocument(upload.filename, |upload.content|, w);
      if outcome.Crashed? { return Crashed; }
      if outcome.Refused? {
        var _ := MarkFailed(id, Summary(outcome.error), disk.mark);
        r := Refused(outcome.error);
      } else {
        var result := outcome.value;
        var _ := MarkExtracted(id, Findings(result.mediaType, result.text, result.textSha,
                                            result.characterCount, result.warnings), disk.mark);
        r := Done(id);
      }
      if disk.mark.Lost? { return Raised(disk.mark.mapped); }
      if disk.reread.Lost? { return Raised(disk.reread.mapped); }
    }
  }

  // --------------------------------------------------------------------- reading

  const MAX_LIST_LIMIT := 100

  function GetOwned(rows: seq<Row>, id: int, owner: int): Option<Row> {
    if Exists(rows, id) && rows[id - 1].origin.createdBy == owner then Some(rows[id - 1]) else None
  }

  /** What a row is listed by; none of it ever changes. */
  datatype Key = Key(id: int, owner: int, createdAt: string)

  function KeyAt(rows: seq<Row>, id: int): Key
    requires Exists(rows, id)
  {
    Key(id, rows[id - 1].origin.createdBy, rows[id - 1].origin.createdAt)
  }

  function Keys(rows: seq<Row>): seq<Key> {
    seq(|rows|, i requires 0 <= i < |rows| => KeyAt(rows, i + 1))
  }

  /** ORDER BY created_at DESC, id DESC. */
  predicate Newer(a: Key, b: Key) {
    StrLe(b.createdAt, a.createdAt) && (a.createdAt == b.createdAt ==> b.id <= a.id)
  }

  lemma NewerSortable()
    ensures Sortable(Newer)
  {
    forall a, b ensures Newer(a, b) || Newer(b, a) {
      StrLeTotal(a.createdAt, b.createdAt);
    }
    forall a, b, c | Newer(a, b) && Newer(b, c) ensures Newer(a, c) {
      StrLeTransitive(c.createdAt, b.createdAt, a.createdAt);
      if a.createdAt == c.createdAt { StrLeAntisymmetric(a.createdAt, b.createdAt); }
    }
  }

  /** An owner's rows, newest first. */
  function OwnedKeys(rows: seq<Row>, owner: int): seq<Key> {
    Sort(Filter(Keys(rows), (k: Key) => k.owner == owner), Newer)
  }

  ghost predicate KeyOf(rows: seq<Row>, owner: int, k: Key) {
    Exists(rows, k.id) && k == KeyAt(rows, k.id) && k.owner == owner
  }

  lemma KeysMember(rows: seq<Row>, k: Key)
    ensures k in Keys(rows) <==> Exists(rows, k.id) && k == KeyAt(rows, k.id)
  {
    if Exists(rows, k.id) && k == KeyAt(rows, k.id) { assert Keys(rows)[k.id - 1] == k; }
  }

  /** The listing holds exactly the owner's rows, once each, newest first with id as tiebreak. */
  lemma OwnedExactly(rows: seq<Row>, owner: int)
    ensures forall k :: k in OwnedKeys(rows, owner) <==> KeyOf(rows, owner, k)
    ensures Distinct(OwnedKeys(rows, owner)) && Sorted(OwnedKeys(rows, owner), Newer)
    ensures forall i, j :: 0 <= i < j < |OwnedKeys(rows, owner)| ==>
      var a, b := OwnedKeys(rows, owner)[i], OwnedKeys(rows, owner)[j];
      StrLe(b.createdAt, a.createdAt) && (a.createdAt == b.createdAt ==> b.id < a.id)
  {
    var mine := (k: Key) => k.owner == owner;
    var kept := Filter(Keys(rows), mine);
    SamePermutation(kept, OwnedKeys(rows, owner));
    forall k ensures k in OwnedKeys(rows, owner) <==> KeyOf(rows, owner, k) {
      FilterMember(Keys(rows), mine, k);
      KeysMember(rows, k);
    }
    FilterDistinct(Keys(rows), mine);
    DistinctPermutation(kept, OwnedKeys(rows, owner));
    NewerSortable();
    SortSorts(kept, Newer);
    var keys := OwnedKeys(rows, owner);
    forall i, j | 0 <= i < j < |keys| && keys[i].createdAt == keys[j].createdAt ensures keys[j].id < keys[i].id {
      assert keys[i] in keys && keys[j] in keys && Newer(keys[i], keys[j]);
    }
  }

  function Clamp(limit: int): (r: int)
    ensures r == if limit < 1 then 1 else if limit > 100 then 100 else limit
  {
    var capped := if limit < MAX_LIST_LIMIT then limit else MAX_LIST_LIMIT;
    if capped < 1 then 1 else capped
  }

  /** LIMIT and OFFSET. */
  function Window<T>(xs: seq<T>, limit: nat, offset: nat): seq<T> {
    if offset >= |xs| then []
    else if offset + limit >= |xs| then xs[offset..]
    else xs[offset..offset + limit]
  }

  function ListOwned(rows: seq<Row>, owner: int, limit: int, offset: int): seq<Key> {
    Window(OwnedKeys(rows, owner), Clamp(limit), if offset < 0 then 0 else offset)
  }

  /** From the offset on, at least one and at most a hundred rows; a negative offset counts as none. */
  lemma ListOwnedExactly(rows: seq<Row>, owner: int, limit: int, offset: int)
    ensures var page, keys := ListOwned(rows, owner, limit, offset), OwnedKeys(rows, owner);
      var start := if offset < 0 then 0 else offset;
      var most := if limit < 1 then 1 else if limit > 100 then 100 else limit;
      && |page| == (if start >= |keys| then 0 else if |keys| - start < most then |keys| - start else most)
      && forall i :: 0 <= i < |page| ==> page[i] == keys[start + i]
  {
  }

  /** Page after page, each starting where the one before it ended, until one is empty. */
  function AllPages(list: nat -> seq<Key>, step: nat, offset: nat, count: nat): seq<Key>
    requires 0 < step
    requires forall o: nat :: list(o) != [] ==> o < count
    decreases if offset < count then count - offset else 0
  {
    var page := list(offset);
    if page == [] then [] else page + AllPages(list, step, offset + step, count)
  }

  /** What a caller collects who asks for every page in turn. */
  function Collected(rows: seq<Row>, owner: int, limit: int): seq<Key> {
    AllPages((o: nat) => ListOwned(rows, owner, limit, o), Clamp(limit), 0, |OwnedKeys(rows, owner)|)
  }

  lemma WindowThenRest<T>(xs: seq<T>, limit: nat, offset: nat)
    requires 0 < limit && offset <= |xs|
    ensures Window(xs, limit, offset) == [] <==> offset == |xs|
    ensures offset + limit <= |xs| ==> Window(xs, limit, offset) + xs[offset + limit..] == xs[offset..]
    ensures offset + limit > |xs| ==> Window(xs, limit, offset) == xs[offset..]
  {
  }

  lemma {:induction false} WindowsFrom(xs: seq<Key>, limit: nat, list: nat -> seq<Key>, offset: nat)
    requires 0 < limit && offset <= |xs|
    requires forall o: nat :: list(o) == Window(xs, limit, o)
    requires forall o: nat :: list(o) != [] ==> o < |xs|
    ensures AllPages(list, limit, offset, |xs|) == xs[offset..]
    decreases |xs| - offset
  {
    WindowThenRest(xs, limit, offset);
    if offset + limit <= |xs| {
      WindowsFrom(xs, limit, list, offset + limit);
    } else {
      assert Window(xs, limit, offset + limit) == [];
    }
  }

  /** Concatenating the pages gives the owner's rows, each once, and nobody else's. */
  lemma PagesAreTheListing(rows: seq<Row>, owner: int, limit: int)
    ensures var all := Collected(rows, owner, limit);
      && (forall k :: k in all <==> KeyOf(rows, owner, k))
      && Distinct(all) && Sorted(all, Newer)
  {
    WindowsFrom(OwnedKeys(rows, owner), Clamp(limit), (o: nat) => ListOwned(rows, owner, limit, o), 0);
    OwnedExactly(rows, owner);
  }

  lemma AtLeastOnce(page: nat, limit: nat)
    requires page > 0
    ensures page * limit >= limit
  {
    assert page * limit == (page - 1) * limit + limit;
  }

  /** A window of `at` keys that starts at the front or past the key at `at` does not show that key. */
  lemma WindowMisses(keys: seq<Key>, start: nat, at: nat)
    requires Distinct(keys) && at < |keys| && (start == 0 || start > at)
    ensures keys[at] !in Window(keys, at, start)
  {
    var window := Window(keys, at, start);
    forall i | 0 <= i < |window| ensures window[i] != keys[at] {
      assert window[i] == keys[start + i];
    }
  }

  /** A caller that steps by the limit it asked for, when that is above the cap, misses rows. */
  lemma SteppingByTheRequestSkips(rows: seq<Row>, owner: int, limit: int, page: nat)
    requires limit > MAX_LIST_LIMIT && |OwnedKeys(rows, owner)| > MAX_LIST_LIMIT
    ensures OwnedKeys(rows, owner)[MAX_LIST_LIMIT] !in ListOwned(rows, owner, limit, page * limit)
  {
    OwnedExactly(rows, owner);
    if page > 0 { AtLeastOnce(page, limit); }
    WindowMisses(OwnedKeys(rows, owner), page * limit, MAX_LIST_LIMIT);
  }

  /** What a caller collects who steps by the limit it asked for, not by the effective one. */
  function CollectedByRequest(rows: seq<Row>, owner: int, limit: nat): seq<Key>
    requires limit >= 1
  {
    AllPages((o: nat) => ListOwned(rows, owner, limit, o), limit, 0, |OwnedKeys(rows, owner)|)
  }

  /** Once the key at `at` is passed over it does not come back. */
  lemma {:induction false} PassedOver(keys: seq<Key>, limit: nat, list: nat -> seq<Key>,
                                      step: nat, offset: nat, at: nat)
    requires 0 < limit && 0 < step && at < |keys| && at < offset && Distinct(keys)
    requires forall o: nat :: list(o) == Window(keys, limit, o)
    requires forall o: nat :: list(o) != [] ==> o < |keys|
    ensures keys[at] !in AllPages(list, step, offset, |keys|)
    decreases if offset < |keys| then |keys| - offset else 0
  {
    var page := Window(keys, limit, offset);
    if page != [] {
      forall i | 0 <= i < |page| ensures page[i] != keys[at] { assert page[i] == keys[offset + i]; }
      PassedOver(keys, limit, list, step, offset + step, at);
    }
  }

  lemma WideStep(keys: seq<Key>, limit: nat, list: nat -> seq<Key>, step: nat)
    requires 0 < limit < step && Distinct(keys)
    requires forall o: nat :: list(o) == Window(keys, limit, o)
    requires forall o: nat :: list(o) != [] ==> o < |keys|
    ensures AllPages(list, step, 0, |keys|) == keys <==> |keys| <= limit
  {
    var rest := AllPages(list, step, step, |keys|);
    if |keys| > limit {
      PassedOver(keys, limit, list, step, step, limit);
      assert AllPages(list, step, 0, |keys|) == keys[..limit] + rest;
      assert keys[limit] in keys && keys[limit] !in keys[..limit];
    } else if keys == [] {
      assert Window(keys, limit, 0) == [];
    } else {
      assert Window(keys, limit, 0) == keys && Window(keys, limit, step) == [];
    }
  }

  /** Stepping by the requested limit collects the listing exactly when the cap makes no difference. */
  lemma SteppingByTheRequestExactly(rows: seq<Row>, owner: int, limit: nat)
    requires limit >= 1
    ensures CollectedByRequest(rows, owner, limit) == OwnedKeys(rows, owner)
       <==> limit <= MAX_LIST_LIMIT || |OwnedKeys(rows, owner)| <= MAX_LIST_LIMIT
  {
    OwnedExactly(rows, owner);
    var list := (o: nat) => ListOwned(rows, owner, limit, o);
    if limit <= MAX_LIST_LIMIT {
      WindowsFrom(OwnedKeys(rows, owner), limit, list, 0);
    } else {
      WideStep(OwnedKeys(rows, owner), MAX_LIST_LIMIT, list, limit);
    }
  }

  /**
   Rows keep their listing order for good: whatever happens later, the rows listed now are
   listed in the same relative order, interrupted only by rows created since.
   */
  lemma ListingOrderForever(rows: seq<Row>, owner: int, es: seq<Event>)
    requires RowsOk(rows)
    ensures Filter(OwnedKeys(Run(rows, es), owner), (k: Key) => k.id <= |rows|) == OwnedKeys(rows, owner)
  {
    var later := Run(rows, es);
    RunKeepsRows(rows, es);
    OwnedExactly(rows, owner);
    OwnedExactly(later, owner);
    var known := (k: Key) => k.id <= |rows|;
    var kept := Filter(OwnedKeys(later, owner), known);
    FilterDistinct(OwnedKeys(later, owner), known);
    FilterSorted(OwnedKeys(later, owner), known, Newer);
    forall k ensures k in kept <==> k in OwnedKeys(rows, owner) {
      FilterMember(OwnedKeys(later, owner), known, k);
      assert Exists(rows, k.id) ==> Evolves(rows[k.id - 1], later[k.id - 1]);
    }
    forall a, b | a in kept && b in kept && Newer(a, b) && Newer(b, a) ensures a == b {
      StrLeAntisymmetric(a.createdAt, b.createdAt);
    }
    SortedUnique(kept, OwnedKeys(rows, owner), Newer);
  }

  /** Reading one row reveals it to its owner only; a stranger and a missing id look the same. */
  lemma OwnedReadExactly(rows: seq<Row>, id: int, owner: int, row: Row)
    ensures GetOwned(rows, id, owner) == Some(row)
       <==> Exists(rows, id) && rows[id - 1] == row && KeyAt(rows, id) in OwnedKeys(rows, owner)
  {
    OwnedExactly(rows, owner);
  }
}
