/**
 Turning an accepted upload into text: the converter first, and OCR only for a PDF whose
 conversion says nothing (backend/documents/markitdown_adapter.py, ocr_adapter.py). What the
 converter, the OCR engine and the two SHA-256 calls answer are inputs.
 */
module Extraction {
  import opened ContentValidation
  import opened DocumentErrors
  import opened Options
  import opened Reals
  import opened Sorting
  import opened Text

  const OCR_MAX_PAGES := 15
  const MIN_MEANINGFUL_OCR_CHARS := 20
  const MIN_PRINTABLE_RATIO := 0.6
  const NONE_SENTINEL := "None"

  // ------------------------------------------------------------ meaningful text

  predicate Meaningless(text: Option<string>) {
    match text
    case None => true
    case Some(t) => Strip(t) == "" || Strip(t) == NONE_SENTINEL
  }

  /** What the converter says is nothing: no text, only spaces, or the word None between spaces. */
  lemma MeaninglessExactly(text: Option<string>)
    ensures Meaningless(text)
       <==> || text.None? || (forall i :: 0 <= i < |text.value| ==> IsSpace(text.value[i]))
            || Stripped(text.value, "None")
  {
    if text.Some? {
      var s, t := text.value, Strip(text.value);
      StripExactly(s);
      var i := StrippedAt(s, t);
      if t == "" { forall k | 0 <= k < |s| ensures IsSpace(s[k]) { if !IsSpace(s[k]) { InsideStripped(s, t, i, k); } } }
      if t != "" { assert s[i] == t[0]; }
      if Stripped(s, "None") { StrippedDetermines(s, t, "None"); }
    }
  }

  function NonSpaces(text: string): nat {
    if text == "" then 0 else (if IsSpace(text[0]) then 0 else 1) + NonSpaces(text[1..])
  }

  function Printables(text: string, printable: char -> bool): nat {
    if text == "" then 0
    else (if !IsSpace(text[0]) && printable(text[0]) then 1 else 0) + Printables(text[1..], printable)
  }

  predicate MeaningfulOcr(text: string, printable: char -> bool) {
    && NonSpaces(text) >= MIN_MEANINGFUL_OCR_CHARS
    && Printables(text, printable) as real / NonSpaces(text) as real >= MIN_PRINTABLE_RATIO
  }

  lemma {:induction false} NonSpacesConcat(a: string, b: string)
    ensures NonSpaces(a + b) == NonSpaces(a) + NonSpaces(b)
  {
    if a == "" {
      assert a + b == b;
    } else {
      assert (a + b)[1..] == a[1..] + b;
      NonSpacesConcat(a[1..], b);
    }
  }

  lemma {:induction false} LStripKeepsNonSpaces(text: string)
    ensures NonSpaces(LStrip(text)) == NonSpaces(text)
  {
    if text != "" { LStripKeepsNonSpaces(text[1..]); }
  }

  lemma {:induction false} RStripKeepsNonSpaces(text: string)
    ensures NonSpaces(RStrip(text)) == NonSpaces(text)
    decreases |text|
  {
    if text != "" && IsSpace(text[|text| - 1]) {
      var front, last := text[..|text| - 1], text[|text| - 1..];
      RStripKeepsNonSpaces(front);
      assert text == front + last && last == [text[|text| - 1]];
      NonSpacesConcat(front, last);
      assert NonSpaces(last[1..]) == 0;
    }
  }

  lemma {:induction false} NonSpacesBound(text: string)
    ensures NonSpaces(text) <= |text|
  {
    if text != "" { NonSpacesBound(text[1..]); }
  }

  /** Stripping removes no visible character, so twenty of them leave neither "" nor "None". */
  lemma ManyCharactersAreMeaningful(text: string)
    requires NonSpaces(text) >= MIN_MEANINGFUL_OCR_CHARS
    ensures !Meaningless(Some(text))
  {
    LStripKeepsNonSpaces(text);
    RStripKeepsNonSpaces(LStrip(text));
    NonSpacesBound(Strip(text));
  }

  // ------------------------------------------------------------------------ OCR

  /** What rendering and recognising one page does. */
  datatype Page = Recognised(text: string) | RenderFailed | TimedOut | RecognitionFailed

  function PageError(page: Page): Error
    requires !page.Recognised?
  {
    if page.TimedOut? then OCRTimeout else OCRFailed
  }

  /**
   The OCR engine on one document. Outside the handlers around opening and around each page, the
   page count, the engine's version and closing the document can still raise.
   */
  datatype Engine = Absent | CannotOpen | Opened(pages: Option<seq<Page>>, version: Option<string>, closes: bool)

  function JoinLines(parts: seq<string>): string {
    if parts == [] then ""
    else if |parts| == 1 then parts[0]
    else parts[0] + "\n\n" + JoinLines(parts[1..])
  }

  /** Where part `k` starts in the joined text: each earlier part is followed by two newlines. */
  function StartOf(parts: seq<string>, k: nat): nat
    requires k <= |parts|
  {
    if k == 0 then 0 else StartOf(parts, k - 1) + |parts[k - 1]| + 2
  }

  /** The text is the parts, in order, two newlines between one and the next, and nothing else. */
  ghost predicate Joins(parts: seq<string>, text: string) {
    && |text| == (if parts == [] then 0 else StartOf(parts, |parts|) - 2)
    && (forall k :: 0 <= k < |parts| ==> PartAt(parts, text, k))
  }

  ghost predicate PartAt(parts: seq<string>, text: string, k: nat)
    requires k < |parts|
  {
    var from := StartOf(parts, k);
    && from + |parts[k]| <= |text| && text[from..from + |parts[k]|] == parts[k]
    && (k > 0 ==> from >= 2 && text[from - 2..from] == "\n\n")
  }

  lemma {:induction false} JoinLinesAppend(parts: seq<string>, last: string)
    requires parts != []
    ensures JoinLines(parts + [last]) == JoinLines(parts) + "\n\n" + last
  {
    var all := parts + [last];
    if |parts| == 1 {
      assert all[1..] == [last];
    } else {
      JoinLinesAppend(parts[1..], last);
      assert all[1..] == parts[1..] + [last];
      Regrouped(parts[0], JoinLines(parts[1..]), last);
    }
  }

  lemma Regrouped(first: string, middle: string, last: string)
    ensures first + "\n\n" + (middle + "\n\n" + last) == first + "\n\n" + middle + "\n\n" + last
  {
  }

  lemma {:induction false} StartOfPrefix(parts: seq<string>, last: string, k: nat)
    requires k <= |parts|
    ensures StartOf(parts + [last], k) == StartOf(parts, k)
  {
    if k > 0 { StartOfPrefix(parts, last, k - 1); }
  }

  lemma SliceKept(text: string, more: string, a: nat, b: nat)
    requires a <= b <= |text|
    ensures (text + more)[a..b] == text[a..b]
  {
  }

  lemma PartKept(parts: seq<string>, text: string, last: string, k: nat)
    requires k < |parts| && Joins(parts, text)
    ensures PartAt(parts + [last], text + ("\n\n" + last), k)
  {
    var from := StartOf(parts, k);
    StartOfPrefix(parts, last, k);
    assert PartAt(parts, text, k);
    SliceKept(text, "\n\n" + last, from, from + |parts[k]|);
    if k > 0 { SliceKept(text, "\n\n" + last, from - 2, from); }
  }

  lemma LastPart(parts: seq<string>, text: string, last: string)
    requires parts != [] && |text| == StartOf(parts, |parts|) - 2
    ensures var all, longer, k := parts + [last], text + ("\n\n" + last), |parts|;
      |longer| == StartOf(all, |all|) - 2 && PartAt(all, longer, k)
  {
    StartOfPrefix(parts, last, |parts|);
    assert StartOf(parts + [last], |parts| + 1) == StartOf(parts + [last], |parts|) + |last| + 2;
  }

  lemma JoinsAppend(parts: seq<string>, text: string, last: string)
    requires parts != [] && Joins(parts, text)
    ensures Joins(parts + [last], text + "\n\n" + last)
  {
    var all, longer := parts + [last], text + ("\n\n" + last);
    LastPart(parts, text, last);
    forall k | 0 <= k < |all| ensures PartAt(all, longer, k) {
      if k < |parts| { PartKept(parts, text, last, k); }
    }
    assert Joins(all, longer);
    assert longer == text + "\n\n" + last;
  }

  /** Joining keeps every part whole, where the parts before it put it. */
  lemma {:induction false} JoinedInOrder(parts: seq<string>)
    ensures Joins(parts, JoinLines(parts))
  {
    if |parts| > 1 {
      var front, last := parts[..|parts| - 1], parts[|parts| - 1];
      JoinedInOrder(front);
      JoinLinesAppend(front, last);
      JoinsAppend(front, JoinLines(front), last);
      assert parts == front + [last];
    } else if |parts| == 1 {
      assert StartOf(parts, 1) == StartOf(parts, 0) + |parts[0]| + 2;
    }
  }

  /** The text is that of every page, in page order, joined by blank lines and stripped at the ends. */
  ghost predicate ReadsPages(pages: seq<Page>, text: string) {
    exists parts: seq<string>, joined: string ::
      && |parts| == |pages| && (forall i :: 0 <= i < |pages| ==> pages[i] == Recognised(parts[i]))
      && Joins(parts, joined) && Stripped(joined, text)
  }

  lemma FullTextReads(pages: seq<Page>)
    requires forall i :: 0 <= i < |pages| ==> pages[i].Recognised?
    ensures ReadsPages(pages, FullText(pages))
  {
    var parts := Texts(pages);
    JoinedInOrder(parts);
    StripExactly(JoinLines(parts));
    assert Joins(parts, JoinLines(parts)) && Stripped(JoinLines(parts), FullText(pages));
  }

  function Texts(pages: seq<Page>): seq<string>
    requires forall i :: 0 <= i < |pages| ==> pages[i].Recognised?
  {
    seq(|pages|, i requires 0 <= i < |pages| => pages[i].text)
  }

  /** The first page that fails, or the number of pages. */
  function FirstFailure(pages: seq<Page>): (k: nat)
    ensures k <= |pages|
    ensures forall i :: 0 <= i < k ==> pages[i].Recognised?
    ensures k < |pages| ==> !pages[k].Recognised?
  {
    if pages == [] || !pages[0].Recognised? then 0 else 1 + FirstFailure(pages[1..])
  }

  /** The text of all pages, joined and stripped. */
  function FullText(pages: seq<Page>): string
    requires forall i :: 0 <= i < |pages| ==> pages[i].Recognised?
  {
    Strip(JoinLines(Texts(pages)))
  }

  /** The recognition pipeline on an opened document. */
  function OcrPages(pages: seq<Page>, printable: char -> bool): Attempt<string> {
    var k := FirstFailure(pages);
    if |pages| > OCR_MAX_PAGES then Refused(OCRPageLimit)
    else if k < |pages| then Refused(PageError(pages[k]))
    else if MeaningfulOcr(FullText(pages), printable) then Done(FullText(pages))
    else Refused(OCREmpty)
  }

  function Ocr(engine: Engine, printable: char -> bool): Attempt<string> {
    match engine
    case Absent => Refused(OCRUnavailable)
    case CannotOpen => Refused(OCRFailed)
    case Opened(pages, version, closes) =>
      if !closes || pages.None? then Crashed
      else
        var r := OcrPages(pages.value, printable);
        if r.Done? && version.None? then Crashed else r
  }

  /** The page loop: stop at the first page that fails, otherwise keep every page's text. */
  method RecognisePages(pages: seq<Page>, printable: char -> bool) returns (r: Attempt<string>)
    ensures r == OcrPages(pages, printable)
    ensures r.Done? ==> ReadsPages(pages, r.value)
  {
    if |pages| > OCR_MAX_PAGES { return Refused(OCRPageLimit); }
    var pageTexts: seq<string> := [];
    for i := 0 to |pages|
      invariant forall j :: 0 <= j < i ==> pages[j].Recognised?
      invariant |pageTexts| == i && forall j :: 0 <= j < i ==> pageTexts[j] == pages[j].text
    {
      if !pages[i].Recognised? {
        return Refused(if pages[i].TimedOut? then OCRTimeout else OCRFailed);
      }
      pageTexts := pageTexts + [pages[i].text];
    }
    assert pageTexts == Texts(pages);
    FullTextReads(pages);
    var combined := Strip(JoinLines(pageTexts));
    r := if MeaningfulOcr(combined, printable) then Done(combined) else Refused(OCREmpty);
  }

  /** `ocr_pdf`, with the document closed whatever happened to it. */
  method OcrPdf(engine: Engine, printable: char -> bool) returns (r: Attempt<string>)
    ensures r == Ocr(engine, printable)
    ensures r.Done? ==> engine.Opened? && engine.pages.Some? && ReadsPages(engine.pages.value, r.value)
  {
    if engine.Absent? { return Refused(OCRUnavailable); }
    if engine.CannotOpen? { return Refused(OCRFailed); }
    r := Crashed;
    if engine.pages.Some? {
      r := RecognisePages(engine.pages.value, printable);
      if r.Done? && engine.version.None? { r := Crashed; }
    }
    if !engine.closes { r := Crashed; }
  }

  /** Up to fifteen pages, all recognised, with real text on them. */
  predicate Legible(pages: seq<Page>, printable: char -> bool) {
    && |pages| <= 15
    && (forall i :: 0 <= i < |pages| ==> pages[i].Recognised?)
    && MeaningfulOcr(FullText(pages), printable)
  }

  lemma LegibleExactly(pages: seq<Page>, printable: char -> bool)
    ensures OcrPages(pages, printable).Done? <==> Legible(pages, printable)
    ensures !OcrPages(pages, printable).Crashed?
  {
    var k := FirstFailure(pages);
  }

  /** The calls of `ocr_pdf` that no handler guards, failing. */
  predicate OcrBreaks(engine: Engine, printable: char -> bool) {
    && engine.Opened?
    && (!engine.closes || engine.pages.None? || (Legible(engine.pages.value, printable) && engine.version.None?))
  }

  lemma OcrCrashesExactly(engine: Engine, printable: char -> bool)
    ensures Ocr(engine, printable).Crashed? <==> OcrBreaks(engine, printable)
  {
    if engine.Opened? && engine.pages.Some? { LegibleExactly(engine.pages.value, printable); }
  }

  /** OCR succeeds exactly on a legible document whose unguarded calls all answer. */
  lemma OcrAcceptsExactly(engine: Engine, printable: char -> bool)
    ensures Ocr(engine, printable).Done?
       <==> && engine.Opened? && engine.closes && engine.pages.Some? && engine.version.Some?
            && Legible(engine.pages.value, printable)
    ensures Ocr(engine, printable).Done? ==> Ocr(engine, printable).value == FullText(engine.pages.value)
    ensures Ocr(engine, printable).Done? ==> ReadsPages(engine.pages.value, Ocr(engine, printable).value)
  {
    if engine.Opened? && engine.pages.Some? {
      LegibleExactly(engine.pages.value, printable);
      if Ocr(engine, printable).Done? { FullTextReads(engine.pages.value); }
    }
  }

  /** Twenty visible characters, at least three fifths of them printable. */
  lemma MeaningfulExactly(text: string, printable: char -> bool)
    ensures var visible := |Filter(text, (c: char) => !IsSpace(c))|;
      MeaningfulOcr(text, printable)
      <==> visible >= 20 && 5 * |Filter(text, (c: char) => !IsSpace(c) && printable(c))| >= 3 * visible
  {
    CountsFilter(text, printable);
    if NonSpaces(text) >= 20 {
      QuotientOrder(Printables(text, printable) as real, NonSpaces(text) as real, MIN_PRINTABLE_RATIO);
    }
  }

  lemma {:induction false} CountsFilter(text: string, printable: char -> bool)
    ensures NonSpaces(text) == |Filter(text, (c: char) => !IsSpace(c))|
    ensures Printables(text, printable) == |Filter(text, (c: char) => !IsSpace(c) && printable(c))|
  {
    if text != "" { CountsFilter(text[1..], printable); }
  }

  /** The first page that could not be read, and how. */
  ghost predicate StopsAt(pages: seq<Page>, page: Page) {
    && !page.Recognised?
    && exists k :: 0 <= k < |pages| && pages[k] == page && forall j :: 0 <= j < k ==> pages[j].Recognised?
  }

  /** Why OCR is refused. */
  ghost predicate OcrFailure(engine: Engine, printable: char -> bool, e: Error) {
    if engine.Absent? then e == OCRUnavailable
    else if engine.CannotOpen? then e == OCRFailed
    else
      && engine.closes && engine.pages.Some?
      && var pages := engine.pages.value;
         if |pages| > 15 then e == OCRPageLimit
         else
           || (e == OCRTimeout && StopsAt(pages, TimedOut))
           || (e == OCRFailed && (StopsAt(pages, RenderFailed) || StopsAt(pages, RecognitionFailed)))
           || (e == OCREmpty && (forall i :: 0 <= i < |pages| ==> pages[i].Recognised?)
               && !MeaningfulOcr(FullText(pages), printable))
  }

  lemma FirstFailureStops(pages: seq<Page>)
    ensures var k := FirstFailure(pages);
      && (k < |pages| ==> forall page :: StopsAt(pages, page) <==> page == pages[k])
      && (k == |pages| ==> forall page :: !StopsAt(pages, page))
  {
  }

  lemma OcrRefusedExactly(engine: Engine, printable: char -> bool, e: Error)
    ensures Ocr(engine, printable) == Refused(e) <==> OcrFailure(engine, printable, e)
  {
    if engine.Opened? && engine.pages.Some? { FirstFailureStops(engine.pages.value); }
  }

  // ------------------------------------------------------------------ extraction

  /** What `converter.convert` does with the accepted bytes. */
  datatype Conversion = Converted(text: Option<string>) | ConversionRefused(error: Error) | ConversionRaised

  /**
   Everything outside the repository that one extraction meets. `encodable` says which texts have
   a UTF-8 encoding (a lone surrogate has none), `packaged` that the converter's version can be read.
   */
  datatype World = World(
    detection: Detection, zip: Zip, conversion: Conversion, engine: Engine, printable: char -> bool,
    hashText: string -> string, encodable: string -> bool, packaged: bool)

  datatype Result = Result(
    extension: string, mediaType: string, size: nat, how: string,
    text: string, textSha: string, characterCount: nat, warnings: seq<string>)

  function Warnings(engine: Engine): seq<string>
    requires engine.Opened? && engine.pages.Some? && engine.version.Some?
  {
    ["ocr_fallback_used", "ocr_engine=tesseract", "ocr_engine_version=" + engine.version.value,
     "ocr_languages=tur+eng", "ocr_page_count=" + NatToString(|engine.pages.value|)]
  }

  predicate Reportable(w: World, text: string) {
    w.packaged && w.encodable(text)
  }

  /** Filling in the result: the version is read and the text hashed outside every handler. */
  function Report(v: Validated, w: World, how: string, text: string, warnings: seq<string>): Attempt<Result> {
    if Reportable(w, text)
    then Done(Result(v.extension, v.format, v.size, how, text, w.hashText(text), |text|, warnings))
    else Crashed
  }

  function ConvertValidated(v: Validated, w: World): Attempt<Result> {
    match w.conversion
    case ConversionRefused(e) => Refused(e)
    case ConversionRaised => Refused(ExtractionFailed)
    case Converted(text) =>
      if !Meaningless(text) then Report(v, w, "markitdown", text.value, [])
      else if v.extension != ".pdf" then Refused(EmptyExtraction)
      else
        match Ocr(w.engine, w.printable)
        case Refused(e) => Refused(e)
        case Crashed => Crashed
        case Done(text) =>
          OcrAcceptsExactly(w.engine, w.printable);
          Report(v, w, "markitdown+ocr", text, Warnings(w.engine))
  }

  function ExtractDocument(filename: string, size: nat, w: World): Attempt<Result> {
    match ValidateDocument(filename, size, w.detection, w.zip)
    case Refused(e) => Refused(e)
    case Crashed => Crashed
    case Done(v) => ConvertValidated(v, w)
  }

  /** OCR produced this result. */
  predicate ByOcr(r: Result) {
    r.how == "markitdown+ocr"
  }

  /** What OCR read, and what is noted about it. */
  ghost predicate ReadBy(r: Result, engine: Engine) {
    && engine.Opened? && engine.pages.Some? && engine.version.Some?
    && ReadsPages(engine.pages.value, r.text)
    && |r.warnings| == 5 && r.warnings[0] == "ocr_fallback_used" && r.warnings[1] == "ocr_engine=tesseract"
    && r.warnings[2] == "ocr_engine_version=" + engine.version.value && r.warnings[3] == "ocr_languages=tur+eng"
    && r.warnings[4] == "ocr_page_count=" + NatToString(|engine.pages.value|)
  }

  /** The text says something, is hashed and counted, and is the converter's or, for a PDF without one, of OCR. */
  ghost predicate RealText(r: Result, w: World) {
    && !Meaningless(Some(r.text)) && r.textSha == w.hashText(r.text) && r.characterCount == |r.text|
    && w.conversion.Converted?
    && (ByOcr(r) <==> Meaningless(w.conversion.text))
    && (ByOcr(r) ==> r.extension == ".pdf" && ReadBy(r, w.engine))
    && (!ByOcr(r) ==> w.conversion.text == Some(r.text) && r.warnings == [])
  }

  /**
   Whatever the converter and the engine answer: text that is extracted says something, is
   hashed and counted as stored, comes from an acceptable upload, and comes from OCR only for a
   PDF whose conversion said nothing.
   */
  lemma ExtractedTextIsReal(filename: string, size: nat, w: World)
    ensures ExtractDocument(filename, size, w).Done? ==>
      var r := ExtractDocument(filename, size, w).value;
      && Acceptable(filename, size, w.detection, w.zip, r.extension)
      && r.size == size && "." + r.mediaType == r.extension && RealText(r, w)
  {
    if ExtractDocument(filename, size, w).Done? {
      var v := ValidateDocument(filename, size, w.detection, w.zip).value;
      AcceptedIsAcceptable(filename, size, w.detection, w.zip);
      AcceptableIsAccepted(filename, size, w.detection, w.zip, v.extension);
      ConvertedTextIsReal(v, w);
    }
  }

  lemma ConvertedTextIsReal(v: Validated, w: World)
    requires ConvertValidated(v, w).Done?
    ensures var r := ConvertValidated(v, w).value;
      r.size == v.size && r.mediaType == v.format && r.extension == v.extension && RealText(r, w)
  {
    if Meaningless(w.conversion.text) {
      OcrAcceptsExactly(w.engine, w.printable);
      ManyCharactersAreMeaningful(ConvertValidated(v, w).value.text);
    }
  }

  /** A conversion that fails outright is reported as such; OCR is never tried. */
  lemma FailureIsNotEmptiness(filename: string, size: nat, w: World, engine: Engine)
    requires !w.conversion.Converted? || !Meaningless(w.conversion.text)
    ensures ExtractDocument(filename, size, w) == ExtractDocument(filename, size, w.(engine := engine))
  {
  }

  /** Why the conversion of an accepted upload is refused. */
  ghost predicate ConversionFailure(extension: string, w: World, e: Error) {
    match w.conversion
    case ConversionRefused(own) => e == own
    case ConversionRaised => e == ExtractionFailed
    case Converted(text) =>
      Meaningless(text) && if extension != ".pdf" then e == EmptyExtraction else OcrFailure(w.engine, w.printable, e)
  }

  lemma ConversionRefusedExactly(v: Validated, w: World, e: Error)
    ensures ConvertValidated(v, w) == Refused(e) <==> ConversionFailure(v.extension, w, e)
  {
    OcrRefusedExactly(w.engine, w.printable, e);
  }

  /** An upload is refused, and as what, exactly by the first guard it fails or by its conversion. */
  lemma RefusedExactly(filename: string, size: nat, w: World, e: Error)
    ensures ExtractDocument(filename, size, w) == Refused(e)
       <==> || GuardFailure(filename, size, w.detection, w.zip, e)
            || (Acceptable(filename, size, w.detection, w.zip, ExtractExtension(filename))
                && ConversionFailure(ExtractExtension(filename), w, e))
  {
    var extension := ExtractExtension(filename);
    GuardsExactly(filename, size, w.detection, w.zip, e);
    var validation := ValidateDocument(filename, size, w.detection, w.zip);
    if Acceptable(filename, size, w.detection, w.zip, extension) {
      AcceptableIsAccepted(filename, size, w.detection, w.zip, extension);
      ConversionRefusedExactly(validation.value, w, e);
    } else if validation.Done? {
      AcceptedIsAcceptable(filename, size, w.detection, w.zip);
      ExtensionAcceptedExactly(filename, validation.value.extension);
    }
    assert ExtractDocument(filename, size, w)
      == if validation.Done? then ConvertValidated(validation.value, w)
         else if validation.Refused? then Refused(validation.error) else Crashed;
  }

  /** The failures of an extraction that nothing between it and the caller turns into an ingestion error. */
  predicate Breaks(filename: string, size: nat, w: World) {
    var extension := ExtractExtension(filename);
    if extension != ".pdf" && w.zip.ZipRaised? then Plausible(filename, size, w.detection, extension)
    else Acceptable(filename, size, w.detection, w.zip, extension) && ConversionBreaks(extension, w)
  }

  /** The same for what follows validation. */
  predicate ConversionBreaks(extension: string, w: World) {
    && w.conversion.Converted?
    && if !Meaningless(w.conversion.text) then !Reportable(w, w.conversion.text.value)
       else
         && extension == ".pdf"
         && (OcrBreaks(w.engine, w.printable)
             || (Ocr(w.engine, w.printable).Done? && !Reportable(w, Ocr(w.engine, w.printable).value)))
  }

  lemma ConversionCrashesExactly(v: Validated, w: World)
    ensures ConvertValidated(v, w).Crashed? <==> ConversionBreaks(v.extension, w)
  {
    OcrCrashesExactly(w.engine, w.printable);
    OcrAcceptsExactly(w.engine, w.printable);
  }

  /**
   An extraction ends in something other than a result or one of the package's own errors exactly
   when a call outside every handler fails: the ZIP reader otherwise than with BadZipFile, the
   page count, the engine's version or the closing of a scanned document, the converter's version,
   or the encoding of the text.
   */
  lemma CrashesExactly(filename: string, size: nat, w: World)
    ensures ExtractDocument(filename, size, w).Crashed? <==> Breaks(filename, size, w)
  {
    var extension := ExtractExtension(filename);
    var validation := ValidateDocument(filename, size, w.detection, w.zip);
    ValidationCrashesExactly(filename, size, w.detection, w.zip);
    if Acceptable(filename, size, w.detection, w.zip, extension) {
      AcceptableIsAccepted(filename, size, w.detection, w.zip, extension);
      ConversionCrashesExactly(validation.value, w);
    } else if validation.Done? {
      AcceptedIsAcceptable(filename, size, w.detection, w.zip);
      ExtensionAcceptedExactly(filename, validation.value.extension);
    }
  }

  // -------------------------------------------------------------- OCR at work

  lemma {:induction false} AllVisible(text: string, printable: char -> bool)
    requires forall i :: 0 <= i < |text| ==> !IsSpace(text[i]) && printable(text[i])
    ensures NonSpaces(text) == |text| && Printables(text, printable) == |text| && Strip(text) == text
  {
    if text != "" { AllVisible(text[1..], printable); }
  }

  /** One recognised page of twenty visible characters is enough for OCR to succeed. */
  lemma OcrReadsVisiblePage(text: string, version: string, printable: char -> bool)
    requires |text| >= MIN_MEANINGFUL_OCR_CHARS
    requires forall i :: 0 <= i < |text| ==> !IsSpace(text[i]) && printable(text[i])
    ensures Ocr(Opened(Some([Recognised(text)]), Some(version), true), printable) == Done(text)
  {
    var pages := [Recognised(text)];
    AllVisible(text, printable);
    assert Texts(pages) == [text];
    assert FullText(pages) == text;
    assert FirstFailure(pages) == 1;
  }
}
