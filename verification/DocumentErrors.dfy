/** The failures document ingestion can report, and the outcome of a step that may fail. */
module DocumentErrors {

  datatype Error =
    | UnsupportedExtension | EmptyDocument | DocumentTooLarge | ContentTypeMismatch
    | MalformedOOXML | SuspiciousArchive | ExtractionFailed | EmptyExtraction | MissingDependency
    | OCRUnavailable | OCRTimeout | OCRFailed | OCREmpty | OCRPageLimit
    | Persistence | RecordNotFound | InvalidTransition

  /** A step returns, raises one of the package's own errors, or raises anything else. */
  datatype Attempt<+T> = Done(value: T) | Refused(error: Error) | Crashed

  /** The persisted code: an exact-type lookup with a generic fallback. */
  function Summary(e: Error): string {
    match e
    case UnsupportedExtension => "unsupported_document_format"
    case EmptyDocument => "empty_document"
    case DocumentTooLarge => "document_too_large"
    case ContentTypeMismatch => "content_type_mismatch"
    case MalformedOOXML => "malformed_ooxml"
    case SuspiciousArchive => "suspicious_archive"
    case ExtractionFailed => "extraction_failed"
    case EmptyExtraction => "empty_extraction"
    case MissingDependency => "missing_document_dependency"
    case OCRUnavailable => "ocr_unavailable"
    case OCRTimeout => "ocr_timeout"
    case OCRFailed => "ocr_failed"
    case OCREmpty => "ocr_empty"
    case OCRPageLimit => "ocr_page_limit"
    case _ => "extraction_failed"
  }

  /** The errors with an entry of their own in the table. */
  predicate Listed(e: Error) {
    !e.Persistence? && !e.RecordNotFound? && !e.InvalidTransition?
  }

  /** A stored code names one listed error, so a failed row says which step failed. */
  lemma SummaryNamesTheError(a: Error, b: Error)
    requires Listed(a) && Listed(b)
    ensures Summary(a) == Summary(b) <==> a == b
  {
    if Summary(a) == Summary(b) {
      assert |Summary(a)| == |Summary(b)|;
      assert Summary(a)[0] == Summary(b)[0];
      assert Summary(a)[4] == Summary(b)[4];
    }
  }
}
