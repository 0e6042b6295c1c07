/** The guards an upload passes before it is converted (backend/documents/content_validation.py). */
module ContentValidation {
  import opened DocumentErrors
  import Sorting
  import opened Reals
  import opened Text

  const MAX_UPLOAD_SIZE_BYTES := 15 * 1024 * 1024
  const MAX_ARCHIVE_ENTRIES := 2000
  const MAX_UNCOMPRESSED_TOTAL_BYTES := 100 * 1024 * 1024
  const MAX_COMPRESSION_RATIO := 100.0
  const SUPPORTED_EXTENSIONS := [".pdf", ".docx", ".xlsx", ".pptx"]
  const CONTENT_TYPES_PART := "[Content_Types].xml"

  // ------------------------------------------------------------------ extension

  function ExtractExtension(filename: string): string {
    var i := RFind('.', filename);
    if i == -1 || i == |filename| - 1 then "" else Lower(filename[i..])
  }

  /**
   The text from the last dot on, in lower case; nothing when there is no dot or nothing behind it.
   */
  lemma ExtensionExactly(filename: string)
    ensures var e := ExtractExtension(filename);
      if '.' !in filename || filename[|filename| - 1] == '.' then e == ""
      else
        && 2 <= |e| <= |filename| && filename[|filename| - |e|] == '.'
        && '.' !in filename[|filename| - |e| + 1..] && e == Lower(filename[|filename| - |e|..])
  {
    var i := RFind('.', filename);
    if i != -1 && i != |filename| - 1 {
      assert |ExtractExtension(filename)| == |filename| - i;
    }
  }

  function ValidateExtension(filename: string): Attempt<string> {
    var extension := ExtractExtension(filename);
    if extension in SUPPORTED_EXTENSIONS then Done(extension) else Refused(UnsupportedExtension)
  }

  predicate HasSuffix(filename: string, extension: string) {
    extension in SUPPORTED_EXTENSIONS && EndsWith(Lower(filename), extension)
  }

  /** The only dot of a supported suffix is its first character. */
  lemma SupportedShape(extension: string)
    requires extension in SUPPORTED_EXTENSIONS
    ensures |extension| >= 4 && extension[0] == '.'
    ensures forall i :: 0 < i < |extension| ==> extension[i] != '.'
  {
  }

  lemma SuffixIsExtension(filename: string, extension: string)
    requires HasSuffix(filename, extension)
    ensures ExtractExtension(filename) == extension
  {
    SupportedShape(extension);
    var cut := |filename| - |extension|;
    var lowered := Lower(filename);
    forall i | 0 <= i < |extension| ensures LowerChar(filename[cut + i]) == extension[i] {
      assert lowered[cut..][i] == lowered[cut + i];
    }
    assert filename[cut] == '.';
    forall i | cut < i < |filename| ensures filename[i] != '.' {
      assert LowerChar(filename[cut + (i - cut)]) == extension[i - cut];
    }
    assert RFind('.', filename) == cut;
    assert Lower(filename[cut..]) == extension;
  }

  lemma ExtensionIsSuffix(filename: string)
    requires ExtractExtension(filename) in SUPPORTED_EXTENSIONS
    ensures HasSuffix(filename, ExtractExtension(filename))
  {
    var i := RFind('.', filename);
    assert Lower(filename)[i..] == Lower(filename[i..]);
  }

  /** A name is accepted, and as which format, exactly by how it ends, letter case aside. */
  lemma ExtensionAcceptedExactly(filename: string, extension: string)
    ensures ValidateExtension(filename) == Done(extension) <==> HasSuffix(filename, extension)
    ensures ValidateExtension(filename).Refused?
       <==> (forall e | e in SUPPORTED_EXTENSIONS :: !EndsWith(Lower(filename), e))
  {
    if HasSuffix(filename, extension) { SuffixIsExtension(filename, extension); }
    if ExtractExtension(filename) in SUPPORTED_EXTENSIONS {
      ExtensionIsSuffix(filename);
    } else {
      forall e | e in SUPPORTED_EXTENSIONS ensures !EndsWith(Lower(filename), e) {
        if EndsWith(Lower(filename), e) { SuffixIsExtension(filename, e); }
      }
    }
  }

  // ------------------------------------------------------------- size and label

  function ValidateSize(size: nat): Attempt<nat> {
    if size == 0 then Refused(EmptyDocument)
    else if size > MAX_UPLOAD_SIZE_BYTES then Refused(DocumentTooLarge)
    else Done(size)
  }

  /** What the content-type detector answers. */
  datatype Detection = Detected(format: string) | Inconclusive | DetectorRaised

  function ExpectedLabel(extension: string): string
    requires extension in SUPPORTED_EXTENSIONS
  {
    SupportedShape(extension);
    extension[1..]
  }

  function ValidateContentType(extension: string, detection: Detection): Attempt<string> {
    if extension !in SUPPORTED_EXTENSIONS then Refused(ContentTypeMismatch)
    else if detection == Detected(ExpectedLabel(extension)) then Done(ExpectedLabel(extension))
    else Refused(ContentTypeMismatch)
  }

  // -------------------------------------------------------------------- archive

  /** Central-directory metadata of one archive member. */
  datatype Entry = Entry(name: string, fileSize: nat, compressSize: nat)

  /** Opening the content as a ZIP archive; `ZipRaised` is any failure other than BadZipFile. */
  datatype Zip = NotAZip | ZipRaised | Unlistable | Directory(entries: seq<Entry>)

  function RequiredPart(extension: string): string {
    if extension == ".docx" then "word/document.xml"
    else if extension == ".xlsx" then "xl/workbook.xml"
    else "ppt/presentation.xml"
  }

  predicate HasPart(entries: seq<Entry>, part: string) {
    exists i :: 0 <= i < |entries| && entries[i].name == part
  }

  function ValidateStructure(extension: string, zip: Zip): Attempt<seq<Entry>> {
    match zip
    case ZipRaised => Crashed
    case NotAZip => Refused(MalformedOOXML)
    case Unlistable => Refused(MalformedOOXML)
    case Directory(entries) =>
      if HasPart(entries, CONTENT_TYPES_PART) && HasPart(entries, RequiredPart(extension))
      then Done(entries) else Refused(MalformedOOXML)
  }

  function TotalUncompressed(entries: seq<Entry>): nat {
    if entries == [] then 0
    else TotalUncompressed(entries[..|entries| - 1]) + entries[|entries| - 1].fileSize
  }

  function TotalCompressed(entries: seq<Entry>): nat {
    if entries == [] then 0
    else TotalCompressed(entries[..|entries| - 1]) + entries[|entries| - 1].compressSize
  }

  /** Content claimed to come out of zero stored bytes. */
  predicate FromNothing(entry: Entry) {
    entry.compressSize == 0 && entry.fileSize > 0
  }

  /**
   The archive rule over the whole list. The ratio is stated by multiplying out: with at most
   100 MiB uncompressed a ratio above 100 exceeds it by more than a double's rounding.
   */
  predicate ArchiveSafe(entries: seq<Entry>) {
    && |entries| <= 2000
    && (forall entry :: entry in entries ==> !FromNothing(entry))
    && TotalUncompressed(entries) <= 104857600
    && TotalUncompressed(entries) <= 100 * TotalCompressed(entries)
  }

  /** With no entry from nothing, nothing stored means nothing claimed: the last branch is dead. */
  lemma {:induction false} NothingFromNothing(entries: seq<Entry>)
    requires forall entry :: entry in entries ==> !FromNothing(entry)
    requires TotalCompressed(entries) == 0
    ensures TotalUncompressed(entries) == 0
  {
    if entries != [] {
      assert !FromNothing(entries[|entries| - 1]);
      NothingFromNothing(entries[..|entries| - 1]);
    }
  }

  lemma RatioMultipliedOut(uncompressed: nat, compressed: nat)
    requires compressed > 0
    ensures uncompressed as real / compressed as real > MAX_COMPRESSION_RATIO
       <==> uncompressed > 100 * compressed
  {
    QuotientOrder(uncompressed as real, compressed as real, MAX_COMPRESSION_RATIO);
    assert (100 * compressed) as real == 100.0 * compressed as real;
  }

  method ValidateArchiveSafety(entries: seq<Entry>) returns (r: Attempt<()>)
    ensures r == if ArchiveSafe(entries) then Done(()) else Refused(SuspiciousArchive)
  {
    if |entries| > MAX_ARCHIVE_ENTRIES { return Refused(SuspiciousArchive); }
    var totalUncompressed, totalCompressed := 0, 0;
    for i := 0 to |entries|
      invariant totalUncompressed == TotalUncompressed(entries[..i])
      invariant totalCompressed == TotalCompressed(entries[..i])
      invariant forall entry :: entry in entries[..i] ==> !FromNothing(entry)
    {
      assert entries[..i + 1][..i] == entries[..i];
      totalUncompressed := totalUncompressed + entries[i].fileSize;
      totalCompressed := totalCompressed + entries[i].compressSize;
      if entries[i].compressSize == 0 && entries[i].fileSize > 0 {
        assert FromNothing(entries[i]);
        return Refused(SuspiciousArchive);
      }
    }
    assert entries[..|entries|] == entries;
    if totalUncompressed > MAX_UNCOMPRESSED_TOTAL_BYTES { return Refused(SuspiciousArchive); }
    if totalCompressed > 0 {
      RatioMultipliedOut(totalUncompressed, totalCompressed);
      if totalUncompressed as real / totalCompressed as real > MAX_COMPRESSION_RATIO {
        return Refused(SuspiciousArchive);
      }
    } else {
      NothingFromNothing(entries);
      if totalUncompressed > 0 { assert false; }
    }
    return Done(());
  }

  lemma {:induction false} TotalsWithout(entries: seq<Entry>, i: nat)
    requires i < |entries|
    ensures var rest := entries[..i] + entries[i + 1..];
      && TotalUncompressed(entries) == TotalUncompressed(rest) + entries[i].fileSize
      && TotalCompressed(entries) == TotalCompressed(rest) + entries[i].compressSize
    decreases |entries|
  {
    var front, rest := entries[..|entries| - 1], entries[..i] + entries[i + 1..];
    if i == |entries| - 1 {
      assert rest == front;
    } else {
      TotalsWithout(front, i);
      assert front[..i] == entries[..i] && front[i + 1..] == entries[i + 1..|entries| - 1];
      assert rest[..|rest| - 1] == front[..i] + front[i + 1..];
    }
  }

  /** Where the last element of one arrangement stands in another, and what is left of both. */
  lemma LastInPermutation(xs: seq<Entry>, ys: seq<Entry>) returns (i: nat)
    requires multiset(xs) == multiset(ys) && xs != []
    ensures i < |ys| && ys[i] == xs[|xs| - 1]
    ensures multiset(xs[..|xs| - 1]) == multiset(ys[..i] + ys[i + 1..])
  {
    var last := xs[|xs| - 1];
    assert last in multiset(xs);
    i :| 0 <= i < |ys| && ys[i] == last;
    assert xs == xs[..|xs| - 1] + [last];
    assert ys == ys[..i] + [last] + ys[i + 1..];
    assert multiset(xs[..|xs| - 1]) == multiset(xs) - multiset{last};
    assert multiset(ys[..i] + ys[i + 1..]) == multiset(ys) - multiset{last};
  }

  lemma {:induction false} TotalsOfPermutation(xs: seq<Entry>, ys: seq<Entry>)
    requires multiset(xs) == multiset(ys)
    ensures TotalUncompressed(xs) == TotalUncompressed(ys)
    ensures TotalCompressed(xs) == TotalCompressed(ys)
    decreases |xs|
  {
    if xs == [] {
      assert |multiset(ys)| == |ys|;
    } else {
      var i := LastInPermutation(xs, ys);
      TotalsOfPermutation(xs[..|xs| - 1], ys[..i] + ys[i + 1..]);
      TotalsWithout(ys, i);
    }
  }

  /** The verdict does not depend on the order in which the archive lists its members. */
  lemma ArchiveOrderIrrelevant(xs: seq<Entry>, ys: seq<Entry>)
    requires multiset(xs) == multiset(ys)
    ensures ArchiveSafe(xs) == ArchiveSafe(ys)
  {
    TotalsOfPermutation(xs, ys);
    Sorting.SamePermutation(xs, ys);
  }

  // -------------------------------------------------------------- whole pipeline

  datatype Validated = Validated(extension: string, size: nat, format: string)

  /** The archive guard as a value, which `ValidateArchiveSafety` computes. */
  function ArchiveVerdict(entries: seq<Entry>): Attempt<()> {
    if ArchiveSafe(entries) then Done(()) else Refused(SuspiciousArchive)
  }

  function CheckArchive(extension: string, zip: Zip): Attempt<()> {
    match ValidateStructure(extension, zip)
    case Refused(e) => Refused(e)
    case Crashed => Crashed
    case Done(entries) => ArchiveVerdict(entries)
  }

  function ValidateDocument(filename: string, size: nat, detection: Detection, zip: Zip): Attempt<Validated> {
    match ValidateExtension(filename)
    case Crashed => Crashed
    case Refused(e) => Refused(e)
    case Done(extension) =>
      match ValidateSize(size)
      case Crashed => Crashed
      case Refused(e) => Refused(e)
      case Done(_) =>
        match ValidateContentType(extension, detection)
        case Crashed => Crashed
        case Refused(e) => Refused(e)
        case Done(format) =>
          if extension == ".pdf" then Done(Validated(extension, size, format))
          else
            match CheckArchive(extension, zip)
            case Crashed => Crashed
            case Refused(e) => Refused(e)
            case Done(_) => Done(Validated(extension, size, format))
  }

  /** A genuine, harmless package of the given format. */
  predicate GoodPackage(extension: string, zip: Zip) {
    && zip.Directory?
    && HasPart(zip.entries, CONTENT_TYPES_PART)
    && HasPart(zip.entries, RequiredPart(extension))
    && ArchiveSafe(zip.entries)
  }

  /** Name, size and detected content agree on a supported format. */
  predicate Plausible(filename: string, size: nat, detection: Detection, extension: string) {
    && HasSuffix(filename, extension)
    && 0 < size <= 15728640
    && detection == Detected(ExpectedLabel(extension))
  }

  /** What an accepted upload is, with no order of checks in it. */
  predicate Acceptable(filename: string, size: nat, detection: Detection, zip: Zip, extension: string) {
    && Plausible(filename, size, detection, extension)
    && (extension != ".pdf" ==> GoodPackage(extension, zip))
  }

  lemma PackageAcceptedExactly(extension: string, zip: Zip)
    ensures CheckArchive(extension, zip).Done? <==> GoodPackage(extension, zip)
  {
  }

  lemma PlausiblePasses(filename: string, size: nat, detection: Detection, extension: string)
    requires Plausible(filename, size, detection, extension)
    ensures ValidateExtension(filename) == Done(extension) && ExtractExtension(filename) == extension
    ensures ValidateSize(size) == Done(size)
    ensures ValidateContentType(extension, detection) == Done(ExpectedLabel(extension))
  {
    ExtensionAcceptedExactly(filename, extension);
    SuffixIsExtension(filename, extension);
  }

  lemma PassesArePlausible(filename: string, size: nat, detection: Detection)
    requires ValidateExtension(filename).Done? && ValidateSize(size).Done?
    requires ValidateContentType(ExtractExtension(filename), detection).Done?
    ensures Plausible(filename, size, detection, ExtractExtension(filename))
  {
    ExtensionAcceptedExactly(filename, ExtractExtension(filename));
  }

  lemma OnlyZipCrashes(filename: string, size: nat, detection: Detection, zip: Zip)
    requires ValidateDocument(filename, size, detection, zip).Crashed?
    ensures ValidateExtension(filename).Done? && ValidateSize(size).Done?
    ensures ValidateContentType(ExtractExtension(filename), detection).Done?
    ensures ExtractExtension(filename) != ".pdf" && zip.ZipRaised?
  {
  }

  lemma ZipCrashes(filename: string, size: nat, detection: Detection, zip: Zip, extension: string)
    requires Plausible(filename, size, detection, extension) && extension != ".pdf" && zip.ZipRaised?
    ensures ValidateDocument(filename, size, detection, zip).Crashed?
  {
    assert CheckArchive(extension, zip) == Crashed;
    PlausiblePasses(filename, size, detection, extension);
    AfterGuards(filename, size, detection, zip, extension);
  }

  /** When name, size and content type pass, the package decides. */
  lemma AfterGuards(filename: string, size: nat, detection: Detection, zip: Zip, extension: string)
    requires ValidateExtension(filename) == Done(extension) && ValidateSize(size).Done?
    requires ValidateContentType(extension, detection).Done? && extension != ".pdf"
    ensures CheckArchive(extension, zip).Crashed? ==> ValidateDocument(filename, size, detection, zip) == Crashed
  {
  }

  /** Validation breaks off with a foreign exception exactly when the ZIP reader raises one. */
  lemma ValidationCrashesExactly(filename: string, size: nat, detection: Detection, zip: Zip)
    ensures ValidateDocument(filename, size, detection, zip).Crashed?
       <==> && Plausible(filename, size, detection, ExtractExtension(filename))
            && ExtractExtension(filename) != ".pdf" && zip.ZipRaised?
  {
    var extension := ExtractExtension(filename);
    if ValidateDocument(filename, size, detection, zip).Crashed? {
      OnlyZipCrashes(filename, size, detection, zip);
      PassesArePlausible(filename, size, detection);
    } else if Plausible(filename, size, detection, extension) && extension != ".pdf" && zip.ZipRaised? {
      ZipCrashes(filename, size, detection, zip, extension);
    }
  }

  /** The main part that each office format must hold. */
  predicate MainPart(extension: string, part: string) {
    || (extension == ".docx" && part == "word/document.xml")
    || (extension == ".xlsx" && part == "xl/workbook.xml")
    || (extension == ".pptx" && part == "ppt/presentation.xml")
  }

  ghost predicate HoldsParts(extension: string, entries: seq<Entry>) {
    && (exists i :: 0 <= i < |entries| && entries[i].name == "[Content_Types].xml")
    && (exists i :: 0 <= i < |entries| && MainPart(extension, entries[i].name))
  }

  ghost predicate PackageFailure(extension: string, zip: Zip, e: Error) {
    && !zip.ZipRaised?
    && if !(zip.Directory? && HoldsParts(extension, zip.entries)) then e == MalformedOOXML
       else !ArchiveSafe(zip.entries) && e == SuspiciousArchive
  }

  /** The first guard that an upload fails, in the order in which they are asked. */
  ghost predicate GuardFailure(filename: string, size: nat, detection: Detection, zip: Zip, e: Error) {
    var extension := ExtractExtension(filename);
    if forall s | s in SUPPORTED_EXTENSIONS :: !EndsWith(Lower(filename), s) then e == UnsupportedExtension
    else if size == 0 then e == EmptyDocument
    else if size > 15728640 then e == DocumentTooLarge
    else if !(|extension| > 0 && detection == Detected(extension[1..])) then e == ContentTypeMismatch
    else extension != ".pdf" && PackageFailure(extension, zip, e)
  }

  lemma PartsExactly(extension: string, entries: seq<Entry>)
    requires extension in SUPPORTED_EXTENSIONS && extension != ".pdf"
    ensures HoldsParts(extension, entries)
       <==> HasPart(entries, CONTENT_TYPES_PART) && HasPart(entries, RequiredPart(extension))
  {
    forall part ensures MainPart(extension, part) <==> part == RequiredPart(extension) {}
  }

  lemma PackageRefusedExactly(extension: string, zip: Zip, e: Error)
    requires extension in SUPPORTED_EXTENSIONS && extension != ".pdf"
    ensures CheckArchive(extension, zip) == Refused(e) <==> PackageFailure(extension, zip, e)
  {
    if zip.Directory? { PartsExactly(extension, zip.entries); }
  }

  lemma SupportedExactly(filename: string)
    ensures (forall s | s in SUPPORTED_EXTENSIONS :: !EndsWith(Lower(filename), s))
       <==> ExtractExtension(filename) !in SUPPORTED_EXTENSIONS
    ensures ExtractExtension(filename) in SUPPORTED_EXTENSIONS ==> |ExtractExtension(filename)| > 0
  {
    ExtensionAcceptedExactly(filename, ExtractExtension(filename));
    if ExtractExtension(filename) in SUPPORTED_EXTENSIONS { SupportedShape(ExtractExtension(filename)); }
  }

  /** Validation refuses an upload, and as what, exactly so. */
  lemma GuardsExactly(filename: string, size: nat, detection: Detection, zip: Zip, e: Error)
    ensures ValidateDocument(filename, size, detection, zip) == Refused(e)
       <==> GuardFailure(filename, size, detection, zip, e)
  {
    var extension := ExtractExtension(filename);
    SupportedExactly(filename);
    if extension in SUPPORTED_EXTENSIONS {
      assert ExpectedLabel(extension) == extension[1..];
      if extension != ".pdf" { PackageRefusedExactly(extension, zip, e); }
      AfterName(filename, extension, size, detection, zip, e);
    }
  }

  lemma AfterName(filename: string, extension: string, size: nat, detection: Detection, zip: Zip, e: Error)
    requires extension in SUPPORTED_EXTENSIONS && extension == ExtractExtension(filename)
    ensures ValidateDocument(filename, size, detection, zip) == Refused(e)
       <==> if size == 0 then e == EmptyDocument
            else if size > 15728640 then e == DocumentTooLarge
            else if detection != Detected(ExpectedLabel(extension)) then e == ContentTypeMismatch
            else extension != ".pdf" && CheckArchive(extension, zip) == Refused(e)
  {
  }

  lemma AcceptableIsAccepted(filename: string, size: nat, detection: Detection, zip: Zip, extension: string)
    requires Acceptable(filename, size, detection, zip, extension)
    ensures ValidateDocument(filename, size, detection, zip)
         == Done(Validated(extension, size, ExpectedLabel(extension)))
  {
    PlausiblePasses(filename, size, detection, extension);
    if extension != ".pdf" { PackageAcceptedExactly(extension, zip); }
  }

  lemma AcceptedIsAcceptable(filename: string, size: nat, detection: Detection, zip: Zip)
    requires ValidateDocument(filename, size, detection, zip).Done?
    ensures Acceptable(filename, size, detection, zip,
              ValidateDocument(filename, size, detection, zip).value.extension)
  {
    var extension := ValidateExtension(filename).value;
    PassesArePlausible(filename, size, detection);
    if extension != ".pdf" { PackageAcceptedExactly(extension, zip); }
  }
}
