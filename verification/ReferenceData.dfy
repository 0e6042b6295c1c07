/** The quality gate on uploaded reference data (backend/engineering_core/validation.py). */
module ReferenceData {
  import opened Reals

  /** A field of an uploaded record: null, the empty text, or a value that `float` accepts or not. */
  datatype Cell = Null | Blank | Filled(numeric: bool)

  datatype Record = NotAnObject | Object(fields: map<string, Cell>)

  /** What reading an uploaded file gives: a parse error, something without a length, or its records. */
  datatype Content = Unparsable | Lengthless | Records(rows: seq<Record>)

  datatype Schema = NoSchema | Schema(requiredAny: seq<seq<string>>, numeric: seq<string>)

  datatype Error =
    | UnknownDataset | NoRecords | RowNotObject(row: nat)
    | GroupMissing(row: nat, group: seq<string>) | NotNumeric(row: nat, key: string)

  const DATASETS: set<string> := {"proof_load", "friction", "washer", "compatibility"}

  function SchemaFor(dataset: string): Schema {
    if dataset == "proof_load" then
      Schema([["thread_code", "thread", "size"], ["nut_property_class", "nut_class", "property_class"],
              ["proof_stress_mpa", "proof_load_n"]],
             ["proof_stress_mpa", "proof_load_n", "stress_area_mm2"])
    else if dataset == "friction" then
      Schema([["coating", "coating_system", "surface"], ["mu_thread_nom", "mu_thread"],
              ["mu_bearing_nom", "mu_bearing"]],
             ["mu_thread_min", "mu_thread_nom", "mu_thread_max", "mu_thread",
              "mu_bearing_min", "mu_bearing_nom", "mu_bearing_max", "mu_bearing"])
    else if dataset == "washer" then
      Schema([["thread_code", "thread", "size"], ["bearing_pressure_limit_mpa", "allowable_bearing_pressure_mpa"]],
             ["inside_diameter_mm", "outside_diameter_mm", "thickness_mm",
              "bearing_pressure_limit_mpa", "allowable_bearing_pressure_mpa"])
    else if dataset == "compatibility" then
      Schema([["bolt_class", "bolt_property_class"], ["minimum_nut_class", "required_nut_class"]], [])
    else NoSchema
  }

  // ------------------------------------------------------ what a valid record is

  predicate HasValue(fields: map<string, Cell>, key: string) {
    key in fields && fields[key].Filled?
  }

  predicate GroupPresent(fields: map<string, Cell>, group: seq<string>) {
    exists i :: 0 <= i < |group| && HasValue(fields, group[i])
  }

  predicate NumericWhenGiven(fields: map<string, Cell>, key: string) {
    HasValue(fields, key) ==> fields[key].numeric
  }

  predicate ValidRecord(schema: Schema, row: Record)
    requires schema.Schema?
  {
    && row.Object?
    && (forall g :: 0 <= g < |schema.requiredAny| ==> GroupPresent(row.fields, schema.requiredAny[g]))
    && (forall k :: 0 <= k < |schema.numeric| ==> NumericWhenGiven(row.fields, schema.numeric[k]))
  }

  /** Something is given for one key of every required group, and what is given for a numeric key is a number. */
  ghost predicate Complete(schema: Schema, row: Record)
    requires schema.Schema?
  {
    && row.Object?
    && (forall group :: group in schema.requiredAny ==>
          exists key :: key in group && key in row.fields && row.fields[key].Filled?)
    && (forall key :: key in schema.numeric && key in row.fields && row.fields[key].Filled? ==> row.fields[key].numeric)
  }

  lemma GroupPresentExactly(fields: map<string, Cell>, group: seq<string>)
    ensures GroupPresent(fields, group) <==> exists key :: key in group && key in fields && fields[key].Filled?
  {
    if key :| key in group && key in fields && fields[key].Filled? {
      var i :| 0 <= i < |group| && group[i] == key;
      assert HasValue(fields, group[i]);
    }
  }

  lemma ValidExactly(schema: Schema, row: Record)
    requires schema.Schema?
    ensures ValidRecord(schema, row) <==> Complete(schema, row)
  {
    if row.Object? {
      forall group
        ensures GroupPresent(row.fields, group)
           <==> exists key :: key in group && key in row.fields && row.fields[key].Filled?
      {
        GroupPresentExactly(row.fields, group);
      }
      if ValidRecord(schema, row) {
        forall key | key in schema.numeric && key in row.fields && row.fields[key].Filled?
          ensures row.fields[key].numeric
        {
          var k :| 0 <= k < |schema.numeric| && schema.numeric[k] == key;
          assert NumericWhenGiven(row.fields, schema.numeric[k]);
        }
        forall group | group in schema.requiredAny ensures GroupPresent(row.fields, group) {
          var g :| 0 <= g < |schema.requiredAny| && schema.requiredAny[g] == group;
          assert GroupPresent(row.fields, schema.requiredAny[g]);
        }
      }
      if Complete(schema, row) {
        forall g | 0 <= g < |schema.requiredAny| ensures GroupPresent(row.fields, schema.requiredAny[g]) {
          assert schema.requiredAny[g] in schema.requiredAny;
        }
        forall k | 0 <= k < |schema.numeric| ensures NumericWhenGiven(row.fields, schema.numeric[k]) {
          assert schema.numeric[k] in schema.numeric;
        }
      }
    }
  }

  /** A package passes: its dataset has a schema, it holds records, and each of them is valid. */
  predicate ValidRows(schema: Schema, rows: seq<Record>) {
    && schema.Schema?
    && rows != []
    && forall i :: 0 <= i < |rows| ==> ValidRecord(schema, rows[i])
  }

  predicate ValidContent(dataset: string, content: Content) {
    content.Records? && ValidRows(SchemaFor(dataset), content.rows)
  }

  // ------------------------------------------------ what each dataset asks for

  /** Something is given for one of these keys. */
  ghost predicate GivesOneOf(row: Record, keys: set<string>) {
    row.Object? && exists key :: key in keys && key in row.fields && row.fields[key].Filled?
  }

  /** Whatever is given for these keys is a number. */
  ghost predicate OnlyNumbers(row: Record, keys: set<string>) {
    row.Object? && forall key :: key in keys && key in row.fields && row.fields[key].Filled? ==> row.fields[key].numeric
  }

  ghost predicate DemandedOfProofLoad(row: Record) {
    && GivesOneOf(row, {"thread_code", "thread", "size"})
    && GivesOneOf(row, {"nut_property_class", "nut_class", "property_class"})
    && GivesOneOf(row, {"proof_stress_mpa", "proof_load_n"})
    && OnlyNumbers(row, {"proof_stress_mpa", "proof_load_n", "stress_area_mm2"})
  }

  ghost predicate DemandedOfFriction(row: Record) {
    && GivesOneOf(row, {"coating", "coating_system", "surface"})
    && GivesOneOf(row, {"mu_thread_nom", "mu_thread"}) && GivesOneOf(row, {"mu_bearing_nom", "mu_bearing"})
    && OnlyNumbers(row, {"mu_thread", "mu_thread_min", "mu_thread_nom", "mu_thread_max",
                         "mu_bearing", "mu_bearing_min", "mu_bearing_nom", "mu_bearing_max"})
  }

  ghost predicate DemandedOfWasher(row: Record) {
    && GivesOneOf(row, {"thread_code", "thread", "size"})
    && GivesOneOf(row, {"bearing_pressure_limit_mpa", "allowable_bearing_pressure_mpa"})
    && OnlyNumbers(row, {"inside_diameter_mm", "outside_diameter_mm", "thickness_mm",
                         "bearing_pressure_limit_mpa", "allowable_bearing_pressure_mpa"})
  }

  ghost predicate DemandedOfCompatibility(row: Record) {
    && GivesOneOf(row, {"bolt_class", "bolt_property_class"})
    && GivesOneOf(row, {"minimum_nut_class", "required_nut_class"})
  }

  ghost predicate Demanded(dataset: string, row: Record) {
    || (dataset == "proof_load" && DemandedOfProofLoad(row))
    || (dataset == "friction" && DemandedOfFriction(row))
    || (dataset == "washer" && DemandedOfWasher(row))
    || (dataset == "compatibility" && DemandedOfCompatibility(row))
  }

  ghost function SetOf(xs: seq<string>): (s: set<string>)
    ensures forall x :: x in s <==> x in xs
  {
    set x | x in xs
  }

  /** A schema given by its groups and its numeric keys as sets. */
  ghost predicate Lists(schema: Schema, groups: seq<set<string>>, numbers: set<string>) {
    && schema.Schema? && SetOf(schema.numeric) == numbers && |schema.requiredAny| == |groups|
    && forall g :: 0 <= g < |groups| ==> SetOf(schema.requiredAny[g]) == groups[g]
  }

  lemma ListedDemands(schema: Schema, groups: seq<set<string>>, numbers: set<string>, row: Record)
    requires Lists(schema, groups, numbers)
    ensures ValidRecord(schema, row)
       <==> row.Object? && OnlyNumbers(row, numbers) && forall g :: 0 <= g < |groups| ==> GivesOneOf(row, groups[g])
  {
    ValidExactly(schema, row);
    if row.Object? {
      forall g | 0 <= g < |groups|
        ensures GroupPresent(row.fields, schema.requiredAny[g]) <==> GivesOneOf(row, groups[g])
      {
        GroupPresentExactly(row.fields, schema.requiredAny[g]);
      }
    }
  }

  lemma TwoDemands(schema: Schema, a: set<string>, b: set<string>, numbers: set<string>, row: Record)
    requires Lists(schema, [a, b], numbers)
    ensures ValidRecord(schema, row)
       <==> row.Object? && OnlyNumbers(row, numbers) && GivesOneOf(row, a) && GivesOneOf(row, b)
  {
    ListedDemands(schema, [a, b], numbers, row);
    assert [a, b][0] == a && [a, b][1] == b;
  }

  lemma ThreeDemands(schema: Schema, a: set<string>, b: set<string>, c: set<string>, numbers: set<string>, row: Record)
    requires Lists(schema, [a, b, c], numbers)
    ensures ValidRecord(schema, row)
       <==> row.Object? && OnlyNumbers(row, numbers) && GivesOneOf(row, a) && GivesOneOf(row, b) && GivesOneOf(row, c)
  {
    ListedDemands(schema, [a, b, c], numbers, row);
    assert [a, b, c][0] == a && [a, b, c][1] == b && [a, b, c][2] == c;
  }

  lemma ProofLoadExactly(row: Record)
    ensures SchemaFor("proof_load").Schema?
    ensures ValidRecord(SchemaFor("proof_load"), row) <==> DemandedOfProofLoad(row)
  {
    ThreeDemands(SchemaFor("proof_load"), {"thread_code", "thread", "size"},
                 {"nut_property_class", "nut_class", "property_class"}, {"proof_stress_mpa", "proof_load_n"},
                 {"proof_stress_mpa", "proof_load_n", "stress_area_mm2"}, row);
  }

  lemma FrictionKeys()
    ensures SchemaFor("friction").Schema?
    ensures SetOf(SchemaFor("friction").numeric)
         == {"mu_thread", "mu_thread_min", "mu_thread_nom", "mu_thread_max",
             "mu_bearing", "mu_bearing_min", "mu_bearing_nom", "mu_bearing_max"}
  {
  }

  lemma FrictionExactly(row: Record)
    ensures SchemaFor("friction").Schema?
    ensures ValidRecord(SchemaFor("friction"), row) <==> DemandedOfFriction(row)
  {
    FrictionKeys();
    ThreeDemands(SchemaFor("friction"), {"coating", "coating_system", "surface"}, {"mu_thread_nom", "mu_thread"},
                 {"mu_bearing_nom", "mu_bearing"},
                 {"mu_thread", "mu_thread_min", "mu_thread_nom", "mu_thread_max",
                  "mu_bearing", "mu_bearing_min", "mu_bearing_nom", "mu_bearing_max"}, row);
  }

  lemma WasherExactly(row: Record)
    ensures SchemaFor("washer").Schema?
    ensures ValidRecord(SchemaFor("washer"), row) <==> DemandedOfWasher(row)
  {
    TwoDemands(SchemaFor("washer"), {"thread_code", "thread", "size"},
               {"bearing_pressure_limit_mpa", "allowable_bearing_pressure_mpa"},
               {"inside_diameter_mm", "outside_diameter_mm", "thickness_mm",
                "bearing_pressure_limit_mpa", "allowable_bearing_pressure_mpa"}, row);
  }

  lemma CompatibilityExactly(row: Record)
    ensures SchemaFor("compatibility").Schema?
    ensures ValidRecord(SchemaFor("compatibility"), row) <==> DemandedOfCompatibility(row)
  {
    TwoDemands(SchemaFor("compatibility"), {"bolt_class", "bolt_property_class"},
               {"minimum_nut_class", "required_nut_class"}, {}, row);
  }

  lemma DemandedExactly(dataset: string, row: Record)
    ensures SchemaFor(dataset).Schema? <==> dataset in DATASETS
    ensures SchemaFor(dataset).Schema? ==> (ValidRecord(SchemaFor(dataset), row) <==> Demanded(dataset, row))
  {
    if dataset == "proof_load" { ProofLoadExactly(row); }
    else if dataset == "friction" { FrictionExactly(row); }
    else if dataset == "washer" { WasherExactly(row); }
    else if dataset == "compatibility" { CompatibilityExactly(row); }
  }

  /** A package passes exactly when it holds records and each has what its dataset asks for. */
  lemma ContentExactly(dataset: string, content: Content)
    ensures ValidContent(dataset, content)
       <==> && dataset in DATASETS && content.Records? && content.rows != []
            && forall i :: 0 <= i < |content.rows| ==> Demanded(dataset, content.rows[i])
  {
    DemandedExactly(dataset, NotAnObject);
    if dataset in DATASETS && content.Records? {
      forall i | 0 <= i < |content.rows|
        ensures ValidRecord(SchemaFor(dataset), content.rows[i]) <==> Demanded(dataset, content.rows[i])
      {
        DemandedExactly(dataset, content.rows[i]);
      }
    }
  }

  // ------------------------------------------------- the row-by-row error report

  const MAX_ERRORS := 100

  function GroupErrors(number: nat, fields: map<string, Cell>, groups: seq<seq<string>>): seq<Error> {
    if groups == [] then []
    else
      var last := groups[|groups| - 1];
      GroupErrors(number, fields, groups[..|groups| - 1])
      + if GroupPresent(fields, last) then [] else [GroupMissing(number, last)]
  }

  function NumericErrors(number: nat, fields: map<string, Cell>, keys: seq<string>): seq<Error> {
    if keys == [] then []
    else
      var last := keys[|keys| - 1];
      NumericErrors(number, fields, keys[..|keys| - 1])
      + if NumericWhenGiven(fields, last) then [] else [NotNumeric(number, last)]
  }

  function RecordErrors(schema: Schema, number: nat, row: Record): seq<Error>
    requires schema.Schema?
  {
    if row.NotAnObject? then [RowNotObject(number)]
    else GroupErrors(number, row.fields, schema.requiredAny) + NumericErrors(number, row.fields, schema.numeric)
  }

  function PackageErrors(schema: Schema, rows: seq<Record>): seq<Error>
    requires schema.Schema?
  {
    if rows == [] then []
    else PackageErrors(schema, rows[..|rows| - 1]) + RecordErrors(schema, |rows|, rows[|rows| - 1])
  }

  lemma {:induction false} GroupErrorsEmpty(number: nat, fields: map<string, Cell>, groups: seq<seq<string>>)
    ensures GroupErrors(number, fields, groups) == []
      <==> forall g :: 0 <= g < |groups| ==> GroupPresent(fields, groups[g])
  {
    if groups != [] { GroupErrorsEmpty(number, fields, groups[..|groups| - 1]); }
  }

  lemma {:induction false} NumericErrorsEmpty(number: nat, fields: map<string, Cell>, keys: seq<string>)
    ensures NumericErrors(number, fields, keys) == []
      <==> forall k :: 0 <= k < |keys| ==> NumericWhenGiven(fields, keys[k])
  {
    if keys != [] { NumericErrorsEmpty(number, fields, keys[..|keys| - 1]); }
  }

  ghost predicate AllValidRecords(schema: Schema, rows: seq<Record>)
    requires schema.Schema?
  {
    forall i :: 0 <= i < |rows| ==> ValidRecord(schema, rows[i])
  }

  lemma RecordErrorsEmpty(schema: Schema, number: nat, row: Record)
    requires schema.Schema?
    ensures RecordErrors(schema, number, row) == [] <==> ValidRecord(schema, row)
  {
    if row.Object? {
      GroupErrorsEmpty(number, row.fields, schema.requiredAny);
      NumericErrorsEmpty(number, row.fields, schema.numeric);
    }
  }

  lemma LastRecord(schema: Schema, rows: seq<Record>)
    requires schema.Schema? && rows != []
    ensures AllValidRecords(schema, rows)
       <==> AllValidRecords(schema, rows[..|rows| - 1]) && ValidRecord(schema, rows[|rows| - 1])
  {
    var front := rows[..|rows| - 1];
    if AllValidRecords(schema, front) && ValidRecord(schema, rows[|rows| - 1]) {
      forall i | 0 <= i < |rows| ensures ValidRecord(schema, rows[i]) {
        if i < |front| { assert front[i] == rows[i]; }
      }
    }
    if AllValidRecords(schema, rows) {
      forall i | 0 <= i < |front| ensures ValidRecord(schema, front[i]) { assert front[i] == rows[i]; }
    }
  }

  /** The report of a package is empty exactly when every record is valid. */
  lemma {:induction false} PackageErrorsEmpty(schema: Schema, rows: seq<Record>)
    requires schema.Schema?
    ensures PackageErrors(schema, rows) == [] <==> AllValidRecords(schema, rows)
  {
    if rows != [] {
      var front, last := rows[..|rows| - 1], rows[|rows| - 1];
      PackageErrorsEmpty(schema, front);
      RecordErrorsEmpty(schema, |rows|, last);
      LastRecord(schema, rows);
      var before, own := PackageErrors(schema, front), RecordErrors(schema, |rows|, last);
      assert PackageErrors(schema, rows) == before + own;
      assert before + own == [] <==> before == [] && own == [];
    }
  }

  /** The error says something true of the rows: an object is missing, or a group, or a number. */
  ghost predicate IsFault(schema: Schema, rows: seq<Record>, e: Error)
    requires schema.Schema?
  {
    match e
    case RowNotObject(n) => 1 <= n <= |rows| && rows[n - 1].NotAnObject?
    case GroupMissing(n, group) =>
      && 1 <= n <= |rows| && rows[n - 1].Object? && group in schema.requiredAny
      && !GroupPresent(rows[n - 1].fields, group)
    case NotNumeric(n, key) =>
      && 1 <= n <= |rows| && rows[n - 1].Object? && key in schema.numeric
      && key in rows[n - 1].fields && rows[n - 1].fields[key] == Filled(false)
    case _ => false
  }

  lemma {:induction false} GroupErrorsExactly(number: nat, fields: map<string, Cell>, groups: seq<seq<string>>,
                                              e: Error)
    ensures e in GroupErrors(number, fields, groups)
       <==> e.GroupMissing? && e.row == number && e.group in groups && !GroupPresent(fields, e.group)
  {
    if groups != [] {
      var front, last := groups[..|groups| - 1], groups[|groups| - 1];
      GroupErrorsExactly(number, fields, front, e);
      assert groups == front + [last];
    }
  }

  lemma {:induction false} NumericErrorsExactly(number: nat, fields: map<string, Cell>, keys: seq<string>, e: Error)
    ensures e in NumericErrors(number, fields, keys)
       <==> && e.NotNumeric? && e.row == number && e.key in keys
            && e.key in fields && fields[e.key] == Filled(false)
  {
    if keys != [] {
      var front, last := keys[..|keys| - 1], keys[|keys| - 1];
      NumericErrorsExactly(number, fields, front, e);
      assert keys == front + [last];
    }
  }

  lemma RecordErrorsExactly(schema: Schema, rows: seq<Record>, number: nat, e: Error)
    requires schema.Schema? && 1 <= number <= |rows|
    ensures e in RecordErrors(schema, number, rows[number - 1])
       <==> IsFault(schema, rows, e) && (match e case RowNotObject(n) => n == number
              case GroupMissing(n, _) => n == number case NotNumeric(n, _) => n == number case _ => false)
  {
    var row := rows[number - 1];
    if row.Object? {
      GroupErrorsExactly(number, row.fields, schema.requiredAny, e);
      NumericErrorsExactly(number, row.fields, schema.numeric, e);
    }
  }

  /** The report lists every fault of every row, and nothing else. */
  lemma {:induction false} PackageErrorsExactly(schema: Schema, rows: seq<Record>, e: Error)
    requires schema.Schema?
    ensures e in PackageErrors(schema, rows) <==> IsFault(schema, rows, e)
  {
    if rows != [] {
      var front := rows[..|rows| - 1];
      PackageErrorsExactly(schema, front, e);
      RecordErrorsExactly(schema, rows, |rows|, e);
    }
  }

  function RowOf(e: Error): nat {
    match e
    case RowNotObject(n) => n
    case GroupMissing(n, _) => n
    case NotNumeric(n, _) => n
    case _ => 0
  }

  ghost predicate RowsAscend(errors: seq<Error>, last: nat) {
    && (forall i, j :: 0 <= i < j < |errors| ==> RowOf(errors[i]) <= RowOf(errors[j]))
    && forall i :: 0 <= i < |errors| ==> RowOf(errors[i]) <= last
  }

  lemma RowsAscendConcat(before: seq<Error>, own: seq<Error>, last: nat)
    requires RowsAscend(before, last) && forall i :: 0 <= i < |own| ==> RowOf(own[i]) == last
    ensures RowsAscend(before + own, last)
  {
  }

  /** The faults come in the order of the rows, so a cut report holds those of the first rows. */
  lemma {:induction false} PackageErrorsInOrder(schema: Schema, rows: seq<Record>)
    requires schema.Schema?
    ensures RowsAscend(PackageErrors(schema, rows), |rows|)
  {
    if rows != [] {
      var front := rows[..|rows| - 1];
      PackageErrorsInOrder(schema, front);
      var before, own := PackageErrors(schema, front), RecordErrors(schema, |rows|, rows[|rows| - 1]);
      forall e | e in before ensures RowOf(e) <= |front| { PackageErrorsExactly(schema, front, e); }
      forall e | e in own ensures RowOf(e) == |rows| { RecordErrorsExactly(schema, rows, |rows|, e); }
      assert RowsAscend(before, |rows|);
      RowsAscendConcat(before, own, |rows|);
    }
  }

  function FullReport(schema: Schema, rows: seq<Record>): seq<Error> {
    if schema.NoSchema? then [UnknownDataset]
    else if rows == [] then [NoRecords]
    else PackageErrors(schema, rows)
  }

  method CheckRecord(schema: Schema, number: nat, row: Record, errors: seq<Error>) returns (out: seq<Error>)
    requires schema.Schema?
    ensures out == errors + RecordErrors(schema, number, row)
  {
    out := errors;
    if row.NotAnObject? {
      return errors + [RowNotObject(number)];
    }
    for g := 0 to |schema.requiredAny|
      invariant out == errors + GroupErrors(number, row.fields, schema.requiredAny[..g])
    {
      assert schema.requiredAny[..g + 1][..g] == schema.requiredAny[..g];
      if !GroupPresent(row.fields, schema.requiredAny[g]) {
        out := out + [GroupMissing(number, schema.requiredAny[g])];
      }
    }
    assert schema.requiredAny[..|schema.requiredAny|] == schema.requiredAny;
    ghost var grouped := out;
    for k := 0 to |schema.numeric|
      invariant out == grouped + NumericErrors(number, row.fields, schema.numeric[..k])
    {
      assert schema.numeric[..k + 1][..k] == schema.numeric[..k];
      if !NumericWhenGiven(row.fields, schema.numeric[k]) {
        out := out + [NotNumeric(number, schema.numeric[k])];
      }
    }
    assert schema.numeric[..|schema.numeric|] == schema.numeric;
  }

  /**
   The report lists the faults in row order, cut to its first 100; the verdict is the
   declarative one, and cutting the report never hides a failure.
   */
  method ValidatePackageRecords(schema: Schema, rows: seq<Record>) returns (valid: bool, report: seq<Error>)
    ensures valid <==> ValidRows(schema, rows)
    ensures valid <==> schema.Schema? && rows != [] && forall i :: 0 <= i < |rows| ==> Complete(schema, rows[i])
    ensures valid <==> report == []
    ensures report == if |FullReport(schema, rows)| <= MAX_ERRORS then FullReport(schema, rows)
                      else FullReport(schema, rows)[..MAX_ERRORS]
  {
    if schema.NoSchema? {
      return false, [UnknownDataset];
    }
    var errors := [];
    if rows == [] {
      errors := [NoRecords];
    }
    for i := 0 to |rows|
      invariant rows == [] ==> errors == [NoRecords]
      invariant rows != [] ==> errors == PackageErrors(schema, rows[..i])
    {
      assert rows[..i + 1][..i] == rows[..i];
      errors := CheckRecord(schema, i + 1, rows[i], errors);
    }
    assert rows[..|rows|] == rows;
    assert errors == FullReport(schema, rows);
    PackageErrorsEmpty(schema, rows);
    forall i | 0 <= i < |rows| ensures ValidRecord(schema, rows[i]) <==> Complete(schema, rows[i]) {
      ValidExactly(schema, rows[i]);
    }
    valid := errors == [];
    report := if |errors| <= MAX_ERRORS then errors else errors[..MAX_ERRORS];
  }

  // ------------------------------------------------------- deviation and tolerance

  function DeviationPct(program: real, reference: real): real
    requires reference != 0.0
  {
    Abs(program - reference) / Abs(reference) * 100.0
  }

  /** A case passes exactly when its deviation, scaled by the reference, is within tolerance. */
  lemma ToleranceExact(program: real, reference: real, tolerancePct: real)
    requires reference != 0.0
    ensures DeviationPct(program, reference) <= tolerancePct
      <==> 100.0 * Abs(program - reference) <= tolerancePct * Abs(reference)
  {
    var d, r := Abs(program - reference), Abs(reference);
    var q := d / r;
    assert d == q * r && 100.0 * d == q * 100.0 * r;
    if q * 100.0 <= tolerancePct {
      assert q * 100.0 * r <= tolerancePct * r;
    } else {
      assert q * 100.0 * r > tolerancePct * r;
    }
  }
}
