/**
 The joint revision export (backend/governance/joint_revision_csv.py), and an independent reader
 for section 2 of RFC 4180 that gets every field of it back.
 */
module CsvExport {
  import opened Options
  import opened Text
  import Sorting

  const CSV_COLUMNS := [
    "joint_revision_id", "source_system", "source_status", "lifecycle_group",
    "canonical_status", "outcome", "safe_reason"]
  const BOM := "\U{FEFF}"

  datatype Projection = Projection(
    id: int, sourceSystem: Option<string>, sourceStatus: Option<string>, lifecycleGroup: Option<string>,
    canonicalStatus: Option<string>, outcome: Option<string>, safeReason: Option<string>)

  // ------------------------------------------------------------------- the guard

  predicate Trigger(c: char) {
    c == '=' || c == '+' || c == '-' || c == '@'
  }

  /** A spreadsheet may take the cell for a formula. */
  predicate FormulaLike(text: string) {
    LStrip(text) != "" && Trigger(LStrip(text)[0])
  }

  function SafeCell(value: Option<string>): string {
    match value
    case None => ""
    case Some(text) => if FormulaLike(text) then "'" + text else text
  }

  /** The first character that is no white space is one of = + - @. */
  ghost predicate StartsFormula(text: string) {
    exists i :: 0 <= i < |text| && text[i] in "=+-@" && AllSpace(text[..i])
  }

  lemma SpaceBefore(text: string, n: nat, k: nat)
    requires k < n <= |text| && AllSpace(text[..n])
    ensures IsSpace(text[k])
  {
    assert text[..n][k] == text[k];
  }

  lemma FormulaLikeExactly(text: string)
    ensures FormulaLike(text) <==> StartsFormula(text)
  {
    var i := LStripIsRest(text);
    if FormulaLike(text) { assert text[i] == LStrip(text)[0]; }
    if k :| 0 <= k < |text| && text[k] in "=+-@" && AllSpace(text[..k]) {
      if k < i {
        SpaceBefore(text, i, k);
        assert false;
      }
      assert LStrip(text)[0] == text[i];
      if i < k { SpaceBefore(text, k, i); }
    }
  }

  /** What a text cell of the export holds for a value. */
  ghost predicate CellOf(value: Option<string>, cell: string) {
    match value
    case None => cell == ""
    case Some(text) => cell == if StartsFormula(text) then "'" + text else text
  }

  lemma SafeCellExactly(value: Option<string>)
    ensures CellOf(value, SafeCell(value))
  {
    if value.Some? { FormulaLikeExactly(value.value); }
  }

  lemma QuoteIsNoTrigger(text: string)
    ensures !FormulaLike("'" + text)
  {
    assert LStrip("'" + text) == "'" + text;
  }

  /** No guarded cell can be taken for a formula, and guarding again changes nothing. */
  lemma GuardedIsSafe(value: Option<string>)
    ensures !FormulaLike(SafeCell(value))
    ensures SafeCell(Some(SafeCell(value))) == SafeCell(value)
  {
    if value.Some? { QuoteIsNoTrigger(value.value); }
  }

  /** Two texts export alike only if one is the guarded form of the other. */
  lemma GuardCollidesExactly(a: string, b: string)
    ensures SafeCell(Some(a)) == SafeCell(Some(b))
       <==> a == b || (FormulaLike(a) && b == "'" + a) || (FormulaLike(b) && a == "'" + b)
  {
    QuoteIsNoTrigger(a);
    QuoteIsNoTrigger(b);
    if FormulaLike(a) && FormulaLike(b) && "'" + a == "'" + b {
      assert a == ("'" + a)[1..] == ("'" + b)[1..] == b;
    }
  }

  function ProjectionRow(p: Projection): (row: seq<string>)
    ensures |row| == |CSV_COLUMNS|
  {
    [IntToString(p.id), SafeCell(p.sourceSystem), SafeCell(p.sourceStatus), SafeCell(p.lifecycleGroup),
     SafeCell(p.canonicalStatus), SafeCell(p.outcome), SafeCell(p.safeReason)]
  }

  /** One record of the export, column by column. */
  ghost predicate RecordOf(p: Projection, record: seq<string>) {
    && |record| == 7 && DecimalOf(p.id, record[0])
    && CellOf(p.sourceSystem, record[1]) && CellOf(p.sourceStatus, record[2]) && CellOf(p.lifecycleGroup, record[3])
    && CellOf(p.canonicalStatus, record[4]) && CellOf(p.outcome, record[5]) && CellOf(p.safeReason, record[6])
  }

  lemma ProjectionRowExactly(p: Projection)
    ensures RecordOf(p, ProjectionRow(p))
  {
    var row := ProjectionRow(p);
    assert DecimalOf(p.id, row[0]) by { IntToStringDecimal(p.id); }
    assert CellOf(p.sourceSystem, row[1]) by { SafeCellExactly(p.sourceSystem); }
    assert CellOf(p.sourceStatus, row[2]) by { SafeCellExactly(p.sourceStatus); }
    assert CellOf(p.lifecycleGroup, row[3]) by { SafeCellExactly(p.lifecycleGroup); }
    assert CellOf(p.canonicalStatus, row[4]) by { SafeCellExactly(p.canonicalStatus); }
    assert CellOf(p.outcome, row[5]) by { SafeCellExactly(p.outcome); }
    assert CellOf(p.safeReason, row[6]) by { SafeCellExactly(p.safeReason); }
  }

  lemma DigitsAreNoFormula(n: nat)
    ensures !FormulaLike(NatToString(n))
  {
    ParseNatToString(n);
    assert LStrip(NatToString(n)) == NatToString(n);
  }

  /** The only unguarded column is the id, which starts like a formula only when negative. */
  lemma FormulaCellsExactly(p: Projection, column: nat)
    requires column < |CSV_COLUMNS|
    ensures FormulaLike(ProjectionRow(p)[column]) <==> column == 0 && p.id < 0
  {
    if column == 0 {
      if p.id >= 0 {
        DigitsAreNoFormula(p.id);
      } else {
        assert LStrip(IntToString(p.id)) == IntToString(p.id);
      }
    } else {
      GuardedIsSafe(p.sourceSystem);
      GuardedIsSafe(p.sourceStatus);
      GuardedIsSafe(p.lifecycleGroup);
      GuardedIsSafe(p.canonicalStatus);
      GuardedIsSafe(p.outcome);
      GuardedIsSafe(p.safeReason);
    }
  }

  // ------------------------------------------------------------------ the writer

  predicate Special(c: char) {
    c == ',' || c == '"' || c == '\r' || c == '\n'
  }

  predicate NeedsQuotes(field: string) {
    exists i :: 0 <= i < |field| && Special(field[i])
  }

  /** Every quote doubled. */
  function Doubled(field: string): string {
    if field == "" then ""
    else (if field[0] == '"' then "\"\"" else [field[0]]) + Doubled(field[1..])
  }

  /** QUOTE_MINIMAL; an empty field is quoted when it is the whole record. */
  function WriteField(field: string, alone: bool): string {
    if NeedsQuotes(field) || (alone && field == "") then "\"" + Doubled(field) + "\"" else field
  }

  /** A field is written as it is unless it holds a comma, a quote or a line break, or is all there is. */
  lemma QuotedExactly(field: string, alone: bool)
    ensures WriteField(field, alone) == field
       <==> (forall c :: c in field ==> c !in ",\"\r\n") && !(alone && field == "")
  {
    DoubledGrows(field);
    if NeedsQuotes(field) {
      var i :| 0 <= i < |field| && Special(field[i]);
      assert field[i] in field && field[i] in ",\"\r\n";
    }
  }

  lemma {:induction false} DoubledGrows(field: string)
    ensures |Doubled(field)| >= |field|
  {
    if field != "" { DoubledGrows(field[1..]); }
  }

  function WriteFields(fields: seq<string>, alone: bool): string
    requires fields != []
  {
    if |fields| == 1 then WriteField(fields[0], alone)
    else WriteField(fields[0], false) + "," + WriteFields(fields[1..], false)
  }

  function WriteRow(fields: seq<string>): string
    requires fields != []
  {
    WriteFields(fields, true) + "\r\n"
  }

  ghost predicate Table(rows: seq<seq<string>>) {
    forall i :: 0 <= i < |rows| ==> rows[i] != []
  }

  function WriteRows(rows: seq<seq<string>>): string
    requires Table(rows)
  {
    if rows == [] then "" else WriteRows(rows[..|rows| - 1]) + WriteRow(rows[|rows| - 1])
  }

  /** The header and one row per projection. */
  function ExportTable(ps: seq<Projection>): (rows: seq<seq<string>>)
    ensures Table(rows) && |rows| == 1 + |ps|
  {
    [CSV_COLUMNS] + Sorting.Map(ps, ProjectionRow)
  }

  lemma WriteRowsAppend(rows: seq<seq<string>>, row: seq<string>)
    requires Table(rows) && row != []
    ensures WriteRows(rows + [row]) == WriteRows(rows) + WriteRow(row)
  {
    assert (rows + [row])[..|rows|] == rows;
  }

  /** The writer loop: a header row, then one row per item. */
  method WriteTable<T>(header: seq<string>, items: seq<T>, row: T -> seq<string>) returns (text: string)
    requires header != [] && forall x :: row(x) != []
    ensures Table([header] + Sorting.Map(items, row))
    ensures text == WriteRows([header] + Sorting.Map(items, row))
  {
    ghost var rows: seq<seq<string>> := [header];
    text := WriteRow(header);
    WriteRowsAppend([], header);
    assert [] + [header] == rows;
    for i := 0 to |items|
      invariant rows == [header] + Sorting.Map(items[..i], row)
      invariant Table(rows) && text == WriteRows(rows)
    {
      WriteRowsAppend(rows, row(items[i]));
      text := text + WriteRow(row(items[i]));
      rows := rows + [row(items[i])];
    }
    assert items[..|items|] == items;
  }

  // ------------------------------------------------------------------ the reader

  /** What was read, and what is left of the text. */
  datatype Parsed<T> = Parsed(value: T, rest: string)

  /** The text of a quoted field after its opening quote. */
  function ReadQuoted(s: string): (r: Option<Parsed<string>>)
    ensures r.Some? ==> |r.value.rest| < |s|
  {
    if s == "" then None
    else if s[0] != '"' then
      match ReadQuoted(s[1..])
      case None => None
      case Some(p) => Some(Parsed([s[0]] + p.value, p.rest))
    else if |s| > 1 && s[1] == '"' then
      match ReadQuoted(s[2..])
      case None => None
      case Some(p) => Some(Parsed("\"" + p.value, p.rest))
    else Some(Parsed("", s[1..]))
  }

  /** An unquoted field: no quote and no bare line feed in it. */
  function ReadPlain(s: string): (r: Option<Parsed<string>>)
    ensures r.Some? ==> |r.value.rest| <= |s|
  {
    if s == "" || s[0] == ',' || s[0] == '\r' then Some(Parsed("", s))
    else if Special(s[0]) then None
    else
      match ReadPlain(s[1..])
      case None => None
      case Some(p) => Some(Parsed([s[0]] + p.value, p.rest))
  }

  function ReadField(s: string): (r: Option<Parsed<string>>)
    ensures r.Some? ==> |r.value.rest| <= |s|
  {
    if s != "" && s[0] == '"' then ReadQuoted(s[1..]) else ReadPlain(s)
  }

  /** Fields separated by commas, up to CRLF or the end of the text. */
  function ReadRecord(s: string): (r: Option<Parsed<seq<string>>>)
    ensures r.Some? ==> |r.value.rest| <= |s| && (s != "" ==> |r.value.rest| < |s|)
    decreases |s|
  {
    match ReadField(s)
    case None => None
    case Some(f) =>
      if f.rest == "" then Some(Parsed([f.value], ""))
      else if f.rest[0] == ',' then
        (match ReadRecord(f.rest[1..])
         case None => None
         case Some(more) => Some(Parsed([f.value] + more.value, more.rest)))
      else if |f.rest| > 1 && f.rest[..2] == "\r\n" then Some(Parsed([f.value], f.rest[2..]))
      else None
  }

  function ReadRows(s: string): Option<seq<seq<string>>>
    decreases |s|
  {
    if s == "" then Some([])
    else
      match ReadRecord(s)
      case None => None
      case Some(r) =>
        match ReadRows(r.rest)
        case None => None
        case Some(rows) => Some([r.value] + rows)
  }

  /** Reading a file: a leading byte-order mark is no part of the text. */
  function ReadDocument(document: string): Option<seq<seq<string>>> {
    if document != "" && document[..1] == BOM then ReadRows(document[1..]) else ReadRows(document)
  }

  // -------------------------------------------------------------- the round trip

  /** A field has ended here. */
  predicate AtBoundary(tail: string) {
    tail == "" || tail[0] == ',' || tail[0] == '\r'
  }

  lemma {:induction false} QuotedReadsBack(field: string, tail: string)
    requires tail == "" || tail[0] != '"'
    ensures ReadQuoted(Doubled(field) + "\"" + tail) == Some(Parsed(field, tail))
  {
    var s := Doubled(field) + "\"" + tail;
    if field == "" {
      assert s == "\"" + tail;
    } else {
      QuotedReadsBack(field[1..], tail);
      assert field == [field[0]] + field[1..];
      var later := Doubled(field[1..]) + "\"" + tail;
      if field[0] == '"' {
        assert s == "\"\"" + later && s[2..] == later;
      } else {
        assert s == [field[0]] + later && s[1..] == later;
      }
    }
  }

  lemma {:induction false} PlainReadsBack(field: string, tail: string)
    requires !NeedsQuotes(field) && AtBoundary(tail)
    ensures ReadPlain(field + tail) == Some(Parsed(field, tail))
  {
    if field == "" {
      assert field + tail == tail;
    } else {
      assert !Special(field[0]);
      forall i | 0 <= i < |field[1..]| ensures !Special(field[1..][i]) {
        assert field[1..][i] == field[i + 1];
      }
      PlainReadsBack(field[1..], tail);
      assert field == [field[0]] + field[1..];
      assert (field + tail)[1..] == field[1..] + tail;
    }
  }

  lemma PlainStart(field: string, tail: string)
    requires !NeedsQuotes(field) && AtBoundary(tail)
    ensures field + tail == "" || (field + tail)[0] != '"'
  {
    if field != "" { assert !Special(field[0]); }
  }

  lemma QuotedFieldReadsBack(field: string, tail: string)
    requires AtBoundary(tail)
    ensures ReadField(['"'] + (Doubled(field) + "\"" + tail)) == Some(Parsed(field, tail))
  {
    var inner := Doubled(field) + "\"" + tail;
    QuotedReadsBack(field, tail);
    assert (['"'] + inner)[1..] == inner;
  }

  lemma QuotedText(inner: string, tail: string)
    ensures ("\"" + inner + "\"") + tail == ['"'] + (inner + "\"" + tail)
  {
  }

  lemma FieldReadsBack(field: string, alone: bool, tail: string)
    requires AtBoundary(tail)
    ensures ReadField(WriteField(field, alone) + tail) == Some(Parsed(field, tail))
  {
    if NeedsQuotes(field) || (alone && field == "") {
      QuotedFieldReadsBack(field, tail);
      QuotedText(Doubled(field), tail);
    } else {
      PlainReadsBack(field, tail);
      PlainStart(field, tail);
    }
  }

  lemma LastFieldReadsBack(field: string, alone: bool, tail: string)
    ensures ReadRecord(WriteField(field, alone) + ("\r\n" + tail)) == Some(Parsed([field], tail))
  {
    var end := "\r\n" + tail;
    FieldReadsBack(field, alone, end);
    assert end[..2] == "\r\n" && end[2..] == tail && end[0] == '\r';
  }

  lemma FirstFieldReadsBack(field: string, later: string, fields: seq<string>, tail: string)
    requires ReadRecord(later) == Some(Parsed(fields, tail))
    ensures ReadRecord(WriteField(field, false) + ([','] + later)) == Some(Parsed([field] + fields, tail))
  {
    FieldReadsBack(field, false, [','] + later);
    assert ([','] + later)[1..] == later;
  }

  /** A record written out: its first field, then a comma or the line break. */
  lemma RecordText(fields: seq<string>, alone: bool, tail: string)
    requires fields != []
    ensures WriteFields(fields, alone) + "\r\n" + tail
         == if |fields| == 1 then WriteField(fields[0], alone) + ("\r\n" + tail)
            else WriteField(fields[0], false) + ([','] + (WriteFields(fields[1..], false) + "\r\n" + tail))
  {
  }

  lemma LastFieldOfRecord(fields: seq<string>, alone: bool, tail: string)
    requires |fields| == 1
    ensures ReadRecord(WriteFields(fields, alone) + "\r\n" + tail) == Some(Parsed(fields, tail))
  {
    var text := WriteFields(fields, alone) + "\r\n" + tail;
    assert text == WriteField(fields[0], alone) + ("\r\n" + tail) by { RecordText(fields, alone, tail); }
    LastFieldReadsBack(fields[0], alone, tail);
    assert fields == [fields[0]];
  }

  lemma FirstFieldOfRecord(fields: seq<string>, alone: bool, later: string, tail: string)
    requires |fields| > 1 && later == WriteFields(fields[1..], false) + "\r\n" + tail
    requires ReadRecord(later) == Some(Parsed(fields[1..], tail))
    ensures ReadRecord(WriteFields(fields, alone) + "\r\n" + tail) == Some(Parsed(fields, tail))
  {
    var text := WriteFields(fields, alone) + "\r\n" + tail;
    assert text == WriteField(fields[0], false) + ([','] + later) by { RecordText(fields, alone, tail); }
    FirstFieldReadsBack(fields[0], later, fields[1..], tail);
    assert fields == [fields[0]] + fields[1..];
  }

  lemma {:induction false} RecordReadsBack(fields: seq<string>, alone: bool, tail: string)
    requires fields != []
    ensures ReadRecord(WriteFields(fields, alone) + "\r\n" + tail) == Some(Parsed(fields, tail))
    decreases |fields|
  {
    if |fields| == 1 {
      LastFieldOfRecord(fields, alone, tail);
    } else {
      RecordReadsBack(fields[1..], false, tail);
      FirstFieldOfRecord(fields, alone, WriteFields(fields[1..], false) + "\r\n" + tail, tail);
    }
  }

  lemma RowReadsBack(row: seq<string>, tail: string, more: seq<seq<string>>)
    requires row != [] && ReadRows(tail) == Some(more)
    ensures ReadRows(WriteRow(row) + tail) == Some([row] + more)
  {
    RecordReadsBack(row, true, tail);
    assert WriteRow(row) + tail == WriteFields(row, true) + "\r\n" + tail;
    assert WriteRow(row) + tail != "";
  }

  lemma ConcatAssociates(a: string, b: string, c: string)
    ensures (a + b) + c == a + (b + c)
  {
  }

  lemma {:induction false} WriteRowsFirst(rows: seq<seq<string>>)
    requires Table(rows) && rows != []
    ensures WriteRows(rows) == WriteRow(rows[0]) + WriteRows(rows[1..])
  {
    var front, last, rest := rows[..|rows| - 1], rows[|rows| - 1], rows[1..];
    if front == [] {
      assert rest == [];
      WriteRowsAppend([], last);
      assert [] + [last] == rows;
      assert WriteRow(last) + "" == WriteRow(last) == "" + WriteRow(last);
    } else {
      WriteRowsFirst(front);
      assert rest == front[1..] + [last] && rows == front + [last];
      WriteRowsAppend(front, last);
      WriteRowsAppend(front[1..], last);
      ConcatAssociates(WriteRow(rows[0]), WriteRows(front[1..]), WriteRow(last));
    }
  }

  lemma {:induction false} RowsReadBack(rows: seq<seq<string>>)
    requires Table(rows)
    ensures ReadRows(WriteRows(rows)) == Some(rows)
    decreases |rows|
  {
    if rows != [] {
      var rest := rows[1..];
      RowsReadBack(rest);
      RowReadsBack(rows[0], WriteRows(rest), rest);
      WriteRowsFirst(rows);
      assert [rows[0]] + rest == rows;
    }
  }

  lemma DocumentReadsBack(ps: seq<Projection>)
    ensures ReadRows(WriteRows(ExportTable(ps))) == Some(ExportTable(ps))
    ensures ReadDocument(BOM + WriteRows(ExportTable(ps))) == Some(ExportTable(ps))
  {
    var document := BOM + WriteRows(ExportTable(ps));
    assert document[..1] == BOM && document[1..] == WriteRows(ExportTable(ps));
    RowsReadBack(ExportTable(ps));
  }

  /** The records are the header and, in order, one for every projection. */
  ghost predicate Exports(ps: seq<Projection>, records: Option<seq<seq<string>>>) {
    && records.Some? && |records.value| == 1 + |ps|
    && records.value[0] == ["joint_revision_id", "source_system", "source_status", "lifecycle_group",
                            "canonical_status", "outcome", "safe_reason"]
    && forall i :: 0 <= i < |ps| ==> RecordOf(ps[i], records.value[i + 1])
  }

  /**
   Reading the exported text gives the header and one seven-field record for every projection, in
   order, each field equal to its guarded source text, whatever commas, quotes, carriage returns or
   line feeds the source holds.
   */
  lemma ExportReadsBack(ps: seq<Projection>)
    ensures Exports(ps, ReadRows(WriteRows(ExportTable(ps))))
    ensures Exports(ps, ReadDocument(BOM + WriteRows(ExportTable(ps))))
  {
    DocumentReadsBack(ps);
    var table := ExportTable(ps);
    forall i | 0 <= i < |ps| ensures RecordOf(ps[i], table[i + 1]) {
      ProjectionRowExactly(ps[i]);
      assert table[i + 1] == ProjectionRow(ps[i]);
    }
  }

  method BuildCsvText(ps: seq<Projection>) returns (text: string)
    ensures text == WriteRows(ExportTable(ps)) && Exports(ps, ReadRows(text))
  {
    text := WriteTable(CSV_COLUMNS, ps, ProjectionRow);
    ExportReadsBack(ps);
  }

  method Serialize(ps: seq<Projection>) returns (document: string)
    ensures document == "\U{FEFF}" + WriteRows(ExportTable(ps)) && Exports(ps, ReadDocument(document))
  {
    var text := BuildCsvText(ps);
    document := BOM + text;
    ExportReadsBack(ps);
  }

  lemma IdColumnInjective(a: int, b: int)
    requires IntToString(a) == IntToString(b)
    ensures a == b
  {
    NumeralNotSigned(a);
    NumeralNotSigned(b);
    if a >= 0 {
      NatToStringInjective(a, b);
    } else {
      assert IntToString(a)[1..] == NatToString(-a);
      assert IntToString(b)[1..] == NatToString(-b);
      NatToStringInjective(-a, -b);
    }
  }

  lemma NumeralNotSigned(n: int)
    ensures IntToString(n) != "" && (IntToString(n)[0] == '-' <==> n < 0)
  {
    if n >= 0 { ParseNatToString(n); }
  }

  lemma SameRows(ps: seq<Projection>, qs: seq<Projection>)
    requires [CSV_COLUMNS] + Sorting.Map(ps, ProjectionRow) == [CSV_COLUMNS] + Sorting.Map(qs, ProjectionRow)
    ensures |ps| == |qs| && forall i :: 0 <= i < |ps| ==> ProjectionRow(ps[i]) == ProjectionRow(qs[i])
  {
    var table := [CSV_COLUMNS] + Sorting.Map(ps, ProjectionRow);
    assert |table| == 1 + |ps| == 1 + |qs|;
    forall i | 0 <= i < |ps| ensures ProjectionRow(ps[i]) == ProjectionRow(qs[i]) {
      assert table[i + 1] == ProjectionRow(ps[i]);
      assert table[i + 1] == ProjectionRow(qs[i]);
    }
  }

  /** Equal exports come from equally many projections with the same ids and the same guarded texts. */
  lemma ExportDetermines(ps: seq<Projection>, qs: seq<Projection>)
    requires WriteRows(ExportTable(ps)) == WriteRows(ExportTable(qs))
    ensures |ps| == |qs|
    ensures forall i :: 0 <= i < |ps| ==> ps[i].id == qs[i].id && ProjectionRow(ps[i]) == ProjectionRow(qs[i])
  {
    DocumentReadsBack(ps);
    DocumentReadsBack(qs);
    SameRows(ps, qs);
    forall i | 0 <= i < |ps| ensures ps[i].id == qs[i].id {
      assert ProjectionRow(ps[i])[0] == ProjectionRow(qs[i])[0];
      IdColumnInjective(ps[i].id, qs[i].id);
    }
  }
}
