/**
 Filling in the bolts and nuts of the earlier library
 (tools/generate_faz2_4_1b_bolt_nut_records.py): what each column is made from, and when a record
 lacks what it takes. Rounding, parsing of decimals and SHA-256 are arbitrary functions.
 */
module LegacyBackfill {
  import opened LibraryRecords
  import opened Options
  import opened Sorting
  import opened Text

  datatype Thread = Thread(
    nominal: real, series: string, pitch: real, stressArea: real, minor: real, pitchDiameter: real,
    designation: string)

  /** One generated record: which row of the series table, at which diameter. */
  datatype Blueprint = Blueprint(series: Series, d: nat)

  datatype Series =
    | Iso4014 | Din931 | Din933 | Din912 | Iso4162 | En14399
    | Stud | SetScrew | Shoulder | ReducedShankBolt | FineIso4017
    | Iso4035 | Iso4161 | Iso7042 | En14399Nut | WeldNut | SquareNut | CapNut

  /** What the generator calls but this model does not define. */
  datatype Tools = Tools(
    round: (real, nat) -> real, number: string -> Option<real>, sha: Record -> string,
    descriptive: Blueprint -> Record)

  /** The lookup dictionary: of two entries with one key the later wins. */
  function Lookup(threads: seq<Thread>, d: real, series: string): Option<Thread> {
    if threads == [] then None
    else
      var last := threads[|threads| - 1];
      if last.nominal == d && last.series == series then Some(last)
      else Lookup(threads[..|threads| - 1], d, series)
  }

  /** Entry `i` is the last one of this diameter and series. */
  ghost predicate LastEntry(threads: seq<Thread>, d: real, series: string, i: nat)
    requires i < |threads|
  {
    && threads[i].nominal == d && threads[i].series == series
    && forall j :: i < j < |threads| ==> !(threads[j].nominal == d && threads[j].series == series)
  }

  lemma {:induction false} LookupFinds(threads: seq<Thread>, d: real, series: string) returns (i: int)
    ensures Lookup(threads, d, series).Some? ==>
      0 <= i < |threads| && LastEntry(threads, d, series, i) && Lookup(threads, d, series) == Some(threads[i])
    ensures Lookup(threads, d, series).None? ==>
      forall j :: 0 <= j < |threads| ==> !(threads[j].nominal == d && threads[j].series == series)
  {
    i := |threads| - 1;
    if threads != [] && !(threads[i].nominal == d && threads[i].series == series) {
      var n := i;
      i := LookupFinds(threads[..n], d, series);
      forall j | 0 <= j < n ensures threads[j] == threads[..n][j] {}
    }
  }

  /** Looking up finds the last entry of a diameter and series, and nothing exactly when there is none. */
  lemma LookupExactly(threads: seq<Thread>, d: real, series: string, thread: Thread)
    ensures Lookup(threads, d, series) == Some(thread)
       <==> exists i :: 0 <= i < |threads| && threads[i] == thread && LastEntry(threads, d, series, i)
  {
    var k := LookupFinds(threads, d, series);
    if i :| 0 <= i < |threads| && threads[i] == thread && LastEntry(threads, d, series, i) {
      assert Lookup(threads, d, series).Some?;
      assert !(i < k) && !(k < i);
    }
  }

  function OrNull(x: Option<real>): Value {
    if x.Some? then Num(x.value) else Null
  }

  // --------------------------------------------------------------- legacy bolts

  datatype Strength = Strength(rm: real, rp02: real, proof: real, elongation: real, hardness: string)

  function StrengthOf(propertyClass: Value): Strength {
    if propertyClass == Text("10.9") then Strength(1040.0, 940.0, 830.0, 9.0, "320-380 HV")
    else if propertyClass == Text("12.9") then Strength(1220.0, 1100.0, 970.0, 8.0, "385-435 HV")
    else Strength(800.0, 640.0, 580.0, 12.0, "255-335 HV")
  }

  const PLATINGS := Items(["Plain", "Zinc flake", "Hot-dip galvanized", "Zinc-nickel"])

  const BOLT_STANDARDS := ["ISO 4017", "ISO 4762"]
  const NUT_STANDARDS := ["ISO 4032", "ISO 4033", "ISO 8673", "ISO 7040", "ISO 10511"]

  /** Everything `backfill_legacy_bolt_records` reads of a record. */
  datatype BoltInputs = BoltInputs(
    standard: Value, diameter: Option<real>, propertyClass: Option<Value>,
    pitchCoarse: Value, flats: Value, bearing: Value, validation: Value, approval: Value)

  function ReadBolt(r: Record): BoltInputs {
    BoltInputs(Get(r, SourceStandard), NumAt(r, DiameterMm), At(r, PropertyClass), Get(r, PitchCoarse),
               Get(r, HeadAcrossFlats), Get(r, BearingDiameter), Get(r, ValidationStatus), Get(r, ApprovalStatus))
  }

  /** Shape and sizes. */
  function ShapeFields(i: BoltInputs, round: (real, nat) -> real): (fields: Record)
    requires i.standard.Text? && i.diameter.Some?
    ensures fields.Keys == SHAPE_WRITTEN
  {
    var socket, d := i.standard.text == "ISO 4762", i.diameter.value;
    map[
      BoltFamily := Text(if socket then "Socket head cap screw" else "Hexagon head screw"),
      StandardOrganization := Text("ISO"),
      NominalDiameter := Num(d),
      Pitch := i.pitchCoarse,
      CoarseOrFine := Text("coarse"),
      ThreadTolerance := Text("6g"),
      NominalLength := Num(round(1.5 * d + 20.0, 1)),
      ThreadedLength := Num(round(2.0 * d + 6.0, 1)),
      DriveType := Text(if socket then "Hex socket (internal)" else "Hex (external)"),
      WrenchSize := i.flats,
      UnderHeadBearing := i.bearing,
      ReducedShank := Null]
  }

  function StrengthFields(propertyClass: Value): (fields: Record)
    ensures fields.Keys == STRENGTH_WRITTEN
  {
    var strength := StrengthOf(propertyClass);
    map[
      TensileStrength := Num(strength.rm), ProofStrength := Num(strength.proof), YieldStrength := Num(strength.rp02),
      Elongation := Num(strength.elongation), Hardness := Text(strength.hardness)]
  }

  /** Treatment, limits of use and standing. */
  function UseFields(i: BoltInputs): (fields: Record)
    requires i.standard.Text? && i.propertyClass.Some?
    ensures fields.Keys == USE_WRITTEN
  {
    map[
      HeatTreatment := Text("Quenched and tempered"),
      Coating := PLATINGS,
      Lubrication := Text("As supplied (unlubricated)"),
      MinTemperature := Num(-50.0),
      MaxTemperature := Num(if i.propertyClass.value == Text("8.8") then 150.0 else 200.0),
      ToleranceReference := Text(i.standard.text + " product grade"),
      VerificationStatus := Text(if i.validation == Text("validated") then "verified" else "unverified"),
      RecordStatus := Text(if i.approval == Text("approved") then "approved" else "draft")]
  }

  const SHAPE_WRITTEN := {
    BoltFamily, StandardOrganization, NominalDiameter, Pitch, CoarseOrFine, ThreadTolerance, NominalLength,
    ThreadedLength, DriveType, WrenchSize, UnderHeadBearing, ReducedShank}

  const STRENGTH_WRITTEN := {TensileStrength, ProofStrength, YieldStrength, Elongation, Hardness}

  const USE_WRITTEN := {
    HeatTreatment, Coating, Lubrication, MinTemperature, MaxTemperature, ToleranceReference, VerificationStatus,
    RecordStatus}

  /** Everything the backfill writes, the checksum apart. */
  function BoltFields(i: BoltInputs, round: (real, nat) -> real): (fields: Record)
    requires i.standard.Text? && i.diameter.Some? && i.propertyClass.Some?
    ensures fields.Keys == SHAPE_WRITTEN + STRENGTH_WRITTEN + USE_WRITTEN
  {
    ShapeFields(i, round) + StrengthFields(i.propertyClass.value) + UseFields(i)
  }

  predicate BoltWritten(f: Field) {
    f in SHAPE_WRITTEN || f in STRENGTH_WRITTEN || f in USE_WRITTEN
  }

  /** The written fields, or None where the original raises. */
  function BoltUpdate(i: BoltInputs, round: (real, nat) -> real): Option<Record> {
    if !i.standard.Text? || i.diameter.None? || i.propertyClass.None? then None
    else Some(BoltFields(i, round))
  }

  function BoltUpdater(t: Tools): Record -> Option<Record> {
    r => BoltUpdate(ReadBolt(r), t.round)
  }

  function FillBolt(r: Record, t: Tools): Option<Record> {
    FillLegacy(r, BOLT_STANDARDS, BoltUpdater(t), t.sha)
  }

  lemma BoltFieldsWritten(i: BoltInputs, round: (real, nat) -> real)
    ensures BoltUpdate(i, round).Some? ==>
      BoltUpdate(i, round).value.Keys == SHAPE_WRITTEN + STRENGTH_WRITTEN + USE_WRITTEN
  {
  }

  predicate BoltRead(f: Field) {
    || f.SourceStandard? || f.DiameterMm? || f.PropertyClass? || f.PitchCoarse? || f.HeadAcrossFlats?
    || f.BearingDiameter? || f.ValidationStatus? || f.ApprovalStatus?
  }

  lemma ReadBoltAgrees(a: Record, b: Record, written: Field -> bool)
    requires Agree(a, b, written)
    requires forall f :: BoltRead(f) ==> !written(f)
    ensures ReadBolt(a) == ReadBolt(b)
  {
  }

  lemma BoltReadNotWritten(f: Field)
    requires BoltRead(f) || f.Version? || f.Checksum?
    ensures !BoltWritten(f)
  {
  }

  /** What is read of a bolt is not written. */
  lemma BoltReadsApart(t: Tools)
    ensures ReadsApart(BoltUpdater(t), BoltWritten)
  {
    forall f | BoltRead(f) || f.Version? || f.Checksum? ensures !BoltWritten(f) {
      BoltReadNotWritten(f);
    }
    forall a, f | BoltUpdater(t)(a).Some? && f in BoltUpdater(t)(a).value ensures BoltWritten(f) {
      BoltFieldsWritten(ReadBolt(a), t.round);
      assert f in BoltUpdate(ReadBolt(a), t.round).value.Keys;
    }
    forall a, b | Agree(a, b, BoltWritten) ensures BoltUpdater(t)(a) == BoltUpdater(t)(b) {
      ReadBoltAgrees(a, b, BoltWritten);
    }
  }

  /** The strengths that go with a property class; every class without an entry has those of 8.8. */
  ghost predicate StrengthColumns(c: Record, propertyClass: Value) {
    && (propertyClass == Text("10.9") ==>
          && Get(c, TensileStrength) == Num(1040.0) && Get(c, YieldStrength) == Num(940.0)
          && Get(c, ProofStrength) == Num(830.0) && Get(c, Elongation) == Num(9.0)
          && Get(c, Hardness) == Text("320-380 HV"))
    && (propertyClass == Text("12.9") ==>
          && Get(c, TensileStrength) == Num(1220.0) && Get(c, YieldStrength) == Num(1100.0)
          && Get(c, ProofStrength) == Num(970.0) && Get(c, Elongation) == Num(8.0)
          && Get(c, Hardness) == Text("385-435 HV"))
    && (propertyClass != Text("10.9") && propertyClass != Text("12.9") ==>
          && Get(c, TensileStrength) == Num(800.0) && Get(c, YieldStrength) == Num(640.0)
          && Get(c, ProofStrength) == Num(580.0) && Get(c, Elongation) == Num(12.0)
          && Get(c, Hardness) == Text("255-335 HV"))
  }

  /** Shape and sizes of a filled-in bolt, from its own standard, diameter and head. */
  ghost predicate BoltShape(r: Record, c: Record, t: Tools)
    requires Get(r, SourceStandard).Text? && Get(r, DiameterMm).Num?
  {
    var socket, d := Get(r, SourceStandard).text == "ISO 4762", Get(r, DiameterMm).num;
    && Get(c, BoltFamily) == Text(if socket then "Socket head cap screw" else "Hexagon head screw")
    && Get(c, DriveType) == Text(if socket then "Hex socket (internal)" else "Hex (external)")
    && Get(c, StandardOrganization) == Text("ISO") && Get(c, NominalDiameter) == Num(d)
    && Get(c, Pitch) == Get(r, PitchCoarse) && Get(c, CoarseOrFine) == Text("coarse")
    && Get(c, ThreadTolerance) == Text("6g") && Get(c, ReducedShank) == Null
    && Get(c, NominalLength) == Num(t.round(1.5 * d + 20.0, 1))
    && Get(c, ThreadedLength) == Num(t.round(2.0 * d + 6.0, 1))
    && Get(c, WrenchSize) == Get(r, HeadAcrossFlats) && Get(c, UnderHeadBearing) == Get(r, BearingDiameter)
  }

  /** How a filled-in bolt is treated, what it may be used for, and its standing. */
  ghost predicate BoltUse(r: Record, c: Record)
    requires Get(r, SourceStandard).Text?
  {
    && Get(c, HeatTreatment) == Text("Quenched and tempered")
    && Get(c, Lubrication) == Text("As supplied (unlubricated)")
    && Get(c, Coating) == Items(["Plain", "Zinc flake", "Hot-dip galvanized", "Zinc-nickel"])
    && Get(c, MinTemperature) == Num(-50.0)
    && Get(c, MaxTemperature) == Num(if Get(r, PropertyClass) == Text("8.8") then 150.0 else 200.0)
    && Get(c, ToleranceReference) == Text(Get(r, SourceStandard).text + " product grade")
    && Get(c, VerificationStatus)
       == Text(if Get(r, ValidationStatus) == Text("validated") then "verified" else "unverified")
    && Get(c, RecordStatus) == Text(if Get(r, ApprovalStatus) == Text("approved") then "approved" else "draft")
  }

  predicate LegacyBolt(r: Record) {
    && Get(r, Version) == Text("2.4.1")
    && (Get(r, SourceStandard) == Text("ISO 4017") || Get(r, SourceStandard) == Text("ISO 4762"))
  }

  /** The columns of a part, read off a record that holds them. */
  ghost predicate Holds(c: Record, part: Record) {
    forall f :: f in part ==> Get(c, f) == part[f]
  }

  lemma FilledIn(r: Record, fields: Record, sha: Record -> string)
    requires Checksum !in fields
    ensures forall f :: f in fields ==> Get(Stamp(r + fields, sha), f) == fields[f]
  {
    forall f | f in fields ensures Get(Stamp(r + fields, sha), f) == fields[f] { StampWrites(r, fields, sha, f); }
  }

  lemma BoltFieldsShape(r: Record, c: Record, t: Tools)
    requires Get(r, SourceStandard).Text? && Get(r, DiameterMm).Num?
    requires Holds(c, ShapeFields(ReadBolt(r), t.round))
    ensures BoltShape(r, c, t)
  {
  }

  lemma StrengthsOf(c: Record, propertyClass: Value)
    requires Holds(c, StrengthFields(propertyClass))
    ensures StrengthColumns(c, propertyClass)
  {
  }

  lemma BoltFieldsUse(r: Record, c: Record)
    requires Get(r, SourceStandard).Text? && PropertyClass in r
    requires Holds(c, UseFields(ReadBolt(r)))
    ensures BoltUse(r, c)
  {
  }

  lemma BoltFilled(r: Record, t: Tools)
    requires Get(r, SourceStandard).Text? && Get(r, DiameterMm).Num? && PropertyClass in r
    ensures var once := Stamp(r + BoltFields(ReadBolt(r), t.round), t.sha);
      BoltShape(r, once, t) && StrengthColumns(once, Get(r, PropertyClass)) && BoltUse(r, once)
  {
    var shape, use := ShapeFields(ReadBolt(r), t.round), UseFields(ReadBolt(r));
    var strength := StrengthFields(Get(r, PropertyClass));
    var once := Stamp(r + (shape + strength + use), t.sha);
    ApartFields();
    ThreeParts(r, shape, strength, use, t.sha);
    BoltFieldsShape(r, once, t);
    StrengthsOf(once, Get(r, PropertyClass));
    BoltFieldsUse(r, once);
  }

  lemma ApartFields()
    ensures SHAPE_WRITTEN !! STRENGTH_WRITTEN !! USE_WRITTEN
    ensures Checksum !in SHAPE_WRITTEN && Checksum !in STRENGTH_WRITTEN && Checksum !in USE_WRITTEN
  {
  }

  /** Columns written in three parts that do not overlap. */
  lemma ThreeParts(r: Record, a: Record, b: Record, c: Record, sha: Record -> string)
    requires a.Keys !! b.Keys !! c.Keys && Checksum !in a && Checksum !in b && Checksum !in c
    ensures var once := Stamp(r + (a + b + c), sha); Holds(once, a) && Holds(once, b) && Holds(once, c)
  {
    FilledIn(r, a + b + c, sha);
  }

  lemma FillBoltIs(r: Record, t: Tools)
    ensures FillBolt(r, t)
         == if !LegacyBolt(r) then Some(r)
            else if !(Get(r, DiameterMm).Num? && PropertyClass in r) then None
            else Some(Stamp(r + BoltFields(ReadBolt(r), t.round), t.sha))
  {
    assert LegacyOf(r, BOLT_STANDARDS) <==> LegacyBolt(r);
  }

  /** The backfill raises exactly on a legacy bolt without a diameter or a class, and fills in exactly these columns. */
  lemma BoltFilledExactly(r: Record, t: Tools)
    ensures !LegacyBolt(r) ==> FillBolt(r, t) == Some(r)
    ensures LegacyBolt(r) ==> (FillBolt(r, t).Some? <==> Get(r, DiameterMm).Num? && PropertyClass in r)
    ensures LegacyBolt(r) && FillBolt(r, t).Some? ==>
      var once := FillBolt(r, t).value;
      BoltShape(r, once, t) && StrengthColumns(once, Get(r, PropertyClass)) && BoltUse(r, once)
  {
    FillBoltIs(r, t);
    if LegacyBolt(r) && Get(r, DiameterMm).Num? && PropertyClass in r { BoltFilled(r, t); }
  }

  // ---------------------------------------------------------------- legacy nuts

  /** Everything `backfill_legacy_nut_records` reads; the locking type defaults to "None". */
  datatype NutInputs = NutInputs(
    standard: Value, thread: Option<string>, propertyClass: Option<Value>, flats: Value,
    locked: bool, validation: Value, approval: Value)

  function ReadNut(r: Record): NutInputs {
    NutInputs(Get(r, SourceStandard), TextAt(r, ThreadName), At(r, PropertyClass), Get(r, WidthAcrossFlats),
              LockingType in r && r[LockingType] != Text("None"), Get(r, ValidationStatus), Get(r, ApprovalStatus))
  }

  datatype ThreadSize = ThreadSize(diameter: real, pitch: Option<real>, fine: bool)

  /** `s[1:]`, which is empty for the empty text. */
  function DropFirst(s: string): (r: string)
    ensures s == (if s == "" then "" else [s[0]]) + r
  {
    if s == "" then "" else s[1..]
  }

  /** "M3" or "M3x0.45". */
  function ParseThread(thread: string, threads: seq<Thread>, number: string -> Option<real>): Option<ThreadSize> {
    var cut := Cut('x', Lower(thread));
    if cut.1 then
      var diameter :- number(DropFirst(cut.0));
      var pitch :- number(cut.2);
      var fine := Lookup(threads, diameter, "Fine");
      Some(ThreadSize(diameter, Some(pitch), fine.Some? && fine.value.pitch == pitch))
    else
      var diameter :- number(DropFirst(thread));
      var coarse := Lookup(threads, diameter, "Coarse");
      Some(ThreadSize(diameter, if coarse.Some? then Some(coarse.value.pitch) else None, false))
  }

  function ProofStress(propertyClass: Value): real {
    if propertyClass == Text("9") then 900.0
    else if propertyClass == Text("10") then 1040.0
    else if propertyClass == Text("12") then 1220.0
    else 800.0
  }

  predicate Falsy(v: Value) {
    v == Null || v == Num(0.0) || v == Text("") || v == Flag(false) || v == Items([])
  }

  /** 1.1547 times the width across flats, when there is one; a width that is no number raises. */
  function CornersOf(flats: Value, round: (real, nat) -> real): Option<Value> {
    if Falsy(flats) then Some(Null)
    else if flats.Num? then Some(Num(round(flats.num * 1.1547, 2)))
    else None
  }

  function NutSizeFields(i: NutInputs, size: ThreadSize): (fields: Record)
    requires i.standard.Text?
    ensures fields.Keys == NUT_SIZE_WRITTEN
  {
    map[
      NutFamily := Text(if i.standard.text == "ISO 4033" then "High nut"
                        else if i.standard.text == "ISO 7040" then "Nylon insert lock nut"
                        else if i.standard.text == "ISO 10511" then "Prevailing torque nut"
                        else "Hexagon nut"),
      StandardOrganization := Text("ISO"),
      NominalDiameter := Num(size.diameter),
      Pitch := OrNull(size.pitch),
      CoarseOrFine := Text(if size.fine then "fine" else "coarse"),
      ThreadTolerance := Text("6H")]
  }

  /** Where the nut bears, and how much. */
  function NutBearingFields(i: NutInputs, stressArea: Option<real>, corners: Value,
                            round: (real, nat) -> real): (fields: Record)
    requires i.propertyClass.Some?
    ensures fields.Keys == NUT_BEARING_WRITTEN
  {
    map[
      WidthAcrossCorners := corners,
      FlangeDiameter := Null,
      BearingSurface := i.flats,
      ProofLoad := if stressArea.None? then Null
                   else Num(round(ProofStress(i.propertyClass.value) * stressArea.value, 1))]
  }

  /** How the nut locks. */
  function NutLockFields(standard: string, locked: bool): (fields: Record)
    ensures fields.Keys == NUT_LOCK_WRITTEN
  {
    var nylon := standard == "ISO 7040" || standard == "ISO 10511";
    map[
      TorqueCategory := Text(if standard == "ISO 7040" then "Standard type, reusable a limited number of cycles"
                             else if nylon then "Low type, reusable a limited number of cycles" else ""),
      LockingPrinciple := Text(if !locked then "" else if nylon then "Nylon insert prevailing torque" else "None"),
      Reusable := if locked && nylon then Flag(true) else Null]
  }

  /** Treatment, the same for all. */
  function NutCareFields(): (fields: Record)
    ensures fields.Keys == NUT_CARE_WRITTEN
  {
    map[
      Hardness := Text("170-302 HV"),
      HeatTreatment := Text("As rolled/hardened"),
      Coating := PLATINGS,
      Lubrication := Text("As supplied (unlubricated)"),
      MatingBolt := Text("Bolt property class <= 8.8 recommended")]
  }

  /** Limits of use and standing. */
  function NutUseFields(i: NutInputs): (fields: Record)
    requires i.standard.Text?
    ensures fields.Keys == NUT_USE_WRITTEN
  {
    map[
      MinTemperature := Num(-50.0),
      MaxTemperature := Num(150.0),
      ToleranceReference := Text(i.standard.text + " (indicative)"),
      VerificationStatus := Text(if i.validation == Text("validated") then "verified" else "unverified"),
      RecordStatus := Text(if i.approval == Text("approved") then "approved" else "draft")]
  }

  const NUT_SIZE_WRITTEN := {NutFamily, StandardOrganization, NominalDiameter, Pitch, CoarseOrFine, ThreadTolerance}
  const NUT_BEARING_WRITTEN := {WidthAcrossCorners, FlangeDiameter, BearingSurface, ProofLoad}
  const NUT_LOCK_WRITTEN := {TorqueCategory, LockingPrinciple, Reusable}
  const NUT_CARE_WRITTEN := {Hardness, HeatTreatment, Coating, Lubrication, MatingBolt}
  const NUT_USE_WRITTEN := {MinTemperature, MaxTemperature, ToleranceReference, VerificationStatus, RecordStatus}

  function NutFields(i: NutInputs, size: ThreadSize, stressArea: Option<real>, corners: Value,
                     round: (real, nat) -> real): (fields: Record)
    requires i.standard.Text? && i.propertyClass.Some?
    ensures fields.Keys
         == NUT_SIZE_WRITTEN + NUT_BEARING_WRITTEN + NUT_LOCK_WRITTEN + NUT_CARE_WRITTEN + NUT_USE_WRITTEN
  {
    NutSizeFields(i, size) + NutBearingFields(i, stressArea, corners, round)
    + NutLockFields(i.standard.text, i.locked) + NutCareFields() + NutUseFields(i)
  }

  predicate NutWritten(f: Field) {
    || f in NUT_SIZE_WRITTEN || f in NUT_BEARING_WRITTEN || f in NUT_LOCK_WRITTEN || f in NUT_CARE_WRITTEN
    || f in NUT_USE_WRITTEN
  }

  /** The written fields, or None where the original raises. */
  function NutUpdate(i: NutInputs, threads: seq<Thread>, t: Tools): Option<Record> {
    var thread :- i.thread;
    var size :- ParseThread(thread, threads, t.number);
    var corners :- CornersOf(i.flats, t.round);
    var stress := Lookup(threads, size.diameter, if size.fine then "Fine" else "Coarse");
    if !i.standard.Text? || i.propertyClass.None? then None
    else Some(NutFields(i, size, if stress.Some? then Some(stress.value.stressArea) else None, corners, t.round))
  }

  function NutUpdater(threads: seq<Thread>, t: Tools): Record -> Option<Record> {
    r => NutUpdate(ReadNut(r), threads, t)
  }

  function FillNut(r: Record, threads: seq<Thread>, t: Tools): Option<Record> {
    FillLegacy(r, NUT_STANDARDS, NutUpdater(threads, t), t.sha)
  }

  lemma NutFieldsWritten(i: NutInputs, threads: seq<Thread>, t: Tools)
    ensures NutUpdate(i, threads, t).Some? ==>
      NutUpdate(i, threads, t).value.Keys
      == NUT_SIZE_WRITTEN + NUT_BEARING_WRITTEN + NUT_LOCK_WRITTEN + NUT_CARE_WRITTEN + NUT_USE_WRITTEN
  {
  }

  predicate NutRead(f: Field) {
    || f.SourceStandard? || f.ThreadName? || f.PropertyClass? || f.WidthAcrossFlats? || f.LockingType?
    || f.ValidationStatus? || f.ApprovalStatus?
  }

  lemma ReadNutAgrees(a: Record, b: Record, written: Field -> bool)
    requires Agree(a, b, written)
    requires forall f :: NutRead(f) ==> !written(f)
    ensures ReadNut(a) == ReadNut(b)
  {
  }

  lemma NutReadNotWritten(f: Field)
    requires NutRead(f) || f.Version? || f.Checksum?
    ensures !NutWritten(f)
  {
  }

  /** What is read of a nut is not written. */
  lemma NutReadsApart(threads: seq<Thread>, t: Tools)
    ensures ReadsApart(NutUpdater(threads, t), NutWritten)
  {
    var update := NutUpdater(threads, t);
    forall f | NutRead(f) || f.Version? || f.Checksum? ensures !NutWritten(f) {
      NutReadNotWritten(f);
    }
    forall a, f | update(a).Some? && f in update(a).value ensures NutWritten(f) {
      NutFieldsWritten(ReadNut(a), threads, t);
      assert f in NutUpdate(ReadNut(a), threads, t).value.Keys;
    }
    forall a, b | Agree(a, b, NutWritten) ensures update(a) == update(b) {
      ReadNutAgrees(a, b, NutWritten);
    }
  }

  /** The sizes that a plain thread name gives, and the pitch of the coarse series. */
  lemma PlainThread(d: string, threads: seq<Thread>, number: string -> Option<real>)
    requires 'x' !in Lower(d)
    ensures ParseThread("M" + d, threads, number)
         == if number(d).None? then None
            else
              var coarse := Lookup(threads, number(d).value, "Coarse");
              Some(ThreadSize(number(d).value, if coarse.Some? then Some(coarse.value.pitch) else None, false))
  {
    var name := "M" + d;
    assert Lower(name) == "m" + Lower(d) && name[1..] == d;
    assert 'x' !in "m" + Lower(d);
    CutAfter('x', Lower(name), "");
  }

  /** A name with a pitch is fine exactly when the library lists it as the fine pitch of its diameter. */
  lemma PitchedThread(d: string, p: string, threads: seq<Thread>, number: string -> Option<real>)
    requires 'x' !in Lower(d)
    ensures var name := "M" + d + "x" + p;
      ParseThread(name, threads, number)
      == if number(Lower(d)).None? || number(Lower(p)).None? then None
         else
           var diameter, pitch := number(Lower(d)).value, number(Lower(p)).value;
           var fine := Lookup(threads, diameter, "Fine");
           Some(ThreadSize(diameter, Some(pitch), fine.Some? && fine.value.pitch == pitch))
  {
    var name := "M" + d + "x" + p;
    assert Lower(name) == "m" + Lower(d) + ['x'] + Lower(p);
    assert 'x' !in "m" + Lower(d) && ("m" + Lower(d))[1..] == Lower(d);
    CutAfter('x', "m" + Lower(d), Lower(p));
  }

  /** Family and sizes of a filled-in nut, from its standard and thread. */
  ghost predicate NutSize(r: Record, size: ThreadSize, c: Record)
    requires Get(r, SourceStandard).Text?
  {
    var standard := Get(r, SourceStandard).text;
    && Get(c, NutFamily) == Text(match standard case "ISO 4033" => "High nut" case "ISO 7040" => "Nylon insert lock nut"
                                 case "ISO 10511" => "Prevailing torque nut" case _ => "Hexagon nut")
    && Get(c, StandardOrganization) == Text("ISO") && Get(c, NominalDiameter) == Num(size.diameter)
    && Get(c, Pitch) == (if size.pitch.Some? then Num(size.pitch.value) else Null)
    && Get(c, CoarseOrFine) == Text(if size.fine then "fine" else "coarse") && Get(c, ThreadTolerance) == Text("6H")
  }

  /** Its bearing face, and the load its class can bear on the stress area of its thread. */
  ghost predicate NutBearing(r: Record, stress: Option<real>, c: Record, t: Tools) {
    var flats := Get(r, WidthAcrossFlats);
    && Get(c, WidthAcrossCorners)
       == (if flats.Num? && flats.num != 0.0 then Num(t.round(flats.num * 1.1547, 2)) else Null)
    && Get(c, FlangeDiameter) == Null && Get(c, BearingSurface) == flats
    && Get(c, ProofLoad) == if stress.None? then Null
                            else Num(t.round(NutProof(Get(r, PropertyClass)) * stress.value, 1))
  }

  /** The stress area of the library's thread of that diameter and series. */
  ghost function AreaOf(threads: seq<Thread>, size: ThreadSize): Option<real> {
    var thread := Lookup(threads, size.diameter, if size.fine then "Fine" else "Coarse");
    if thread.Some? then Some(thread.value.stressArea) else None
  }

  /** Proof stress by class, in MPa; 800 where the table has no entry. */
  ghost function NutProof(propertyClass: Value): real {
    match propertyClass
    case Text("9") => 900.0
    case Text("10") => 1040.0
    case Text("12") => 1220.0
    case _ => 800.0
  }

  /** A locking type is kept only where the standard knows one. */
  ghost predicate NutLock(r: Record, c: Record)
    requires Get(r, SourceStandard).Text?
  {
    var standard := Get(r, SourceStandard).text;
    var locked, nylon := LockingType in r && r[LockingType] != Text("None"), standard in {"ISO 7040", "ISO 10511"};
    && (nylon && locked ==>
          Get(c, LockingPrinciple) == Text("Nylon insert prevailing torque") && Get(c, Reusable) == Flag(true))
    && (!locked ==> Get(c, LockingPrinciple) == Text("") && Get(c, Reusable) == Null)
    && (!nylon && locked ==> Get(c, LockingPrinciple) == Text("None") && Get(c, Reusable) == Null)
    && (standard == "ISO 7040" ==> Get(c, TorqueCategory) == Text("Standard type, reusable a limited number of cycles"))
    && (standard == "ISO 10511" ==> Get(c, TorqueCategory) == Text("Low type, reusable a limited number of cycles"))
    && (!nylon ==> Get(c, TorqueCategory) == Text(""))
  }

  ghost predicate NutCare(c: Record) {
    && Get(c, Hardness) == Text("170-302 HV") && Get(c, HeatTreatment) == Text("As rolled/hardened")
    && Get(c, Coating) == Items(["Plain", "Zinc flake", "Hot-dip galvanized", "Zinc-nickel"])
    && Get(c, Lubrication) == Text("As supplied (unlubricated)")
    && Get(c, MatingBolt) == Text("Bolt property class <= 8.8 recommended")
  }

  ghost predicate NutUse(r: Record, c: Record)
    requires Get(r, SourceStandard).Text?
  {
    && Get(c, MinTemperature) == Num(-50.0) && Get(c, MaxTemperature) == Num(150.0)
    && Get(c, ToleranceReference) == Text(Get(r, SourceStandard).text + " (indicative)")
    && Get(c, VerificationStatus)
       == Text(if Get(r, ValidationStatus) == Text("validated") then "verified" else "unverified")
    && Get(c, RecordStatus) == Text(if Get(r, ApprovalStatus) == Text("approved") then "approved" else "draft")
  }

  predicate LegacyNut(r: Record) {
    && Get(r, Version) == Text("2.4.1") && Get(r, SourceStandard).Text?
    && Get(r, SourceStandard).text in {"ISO 4032", "ISO 4033", "ISO 8673", "ISO 7040", "ISO 10511"}
  }

  /** What the nut's name, class and width must be for the backfill not to raise. */
  predicate NutReadable(r: Record, threads: seq<Thread>, t: Tools) {
    && ThreadName in r && r[ThreadName].Text? && PropertyClass in r
    && ParseThread(r[ThreadName].text, threads, t.number).Some?
    && (Get(r, WidthAcrossFlats).Num? || Get(r, WidthAcrossFlats) in {Null, Text(""), Flag(false), Items([])})
  }

  lemma NutSizeOf(r: Record, size: ThreadSize, c: Record)
    requires Get(r, SourceStandard).Text? && Holds(c, NutSizeFields(ReadNut(r), size))
    ensures NutSize(r, size, c)
  {
  }

  lemma NutBearingOf(r: Record, area: Option<real>, corners: Value, c: Record, t: Tools)
    requires PropertyClass in r && CornersOf(Get(r, WidthAcrossFlats), t.round) == Some(corners)
    requires Holds(c, NutBearingFields(ReadNut(r), area, corners, t.round))
    ensures NutBearing(r, area, c, t)
  {
    CornersExactly(Get(r, WidthAcrossFlats), t.round);
  }

  lemma NutLockOf(r: Record, c: Record)
    requires Get(r, SourceStandard).Text? && Holds(c, NutLockFields(Get(r, SourceStandard).text, ReadNut(r).locked))
    ensures NutLock(r, c)
  {
  }

  lemma NutCareOf(c: Record)
    requires Holds(c, NutCareFields())
    ensures NutCare(c)
  {
  }

  lemma NutUseOf(r: Record, c: Record)
    requires Get(r, SourceStandard).Text? && Holds(c, NutUseFields(ReadNut(r)))
    ensures NutUse(r, c)
  {
  }

  lemma NutFiguresApart()
    ensures NUT_SIZE_WRITTEN !! NUT_BEARING_WRITTEN !! NUT_LOCK_WRITTEN
    ensures Checksum !in NUT_SIZE_WRITTEN + NUT_BEARING_WRITTEN + NUT_LOCK_WRITTEN
  {
  }

  lemma NutRestApart()
    ensures NUT_SIZE_WRITTEN + NUT_BEARING_WRITTEN + NUT_LOCK_WRITTEN !! NUT_CARE_WRITTEN
    ensures Checksum !in NUT_CARE_WRITTEN
  {
  }

  lemma NutUseApart()
    ensures NUT_SIZE_WRITTEN + NUT_BEARING_WRITTEN + NUT_LOCK_WRITTEN + NUT_CARE_WRITTEN !! NUT_USE_WRITTEN
    ensures Checksum !in NUT_USE_WRITTEN
  {
  }

  /** Columns written in five parts that do not overlap. */
  lemma FiveParts(r: Record, a: Record, b: Record, c: Record, d: Record, e: Record, sha: Record -> string)
    requires a.Keys !! b.Keys !! c.Keys !! d.Keys !! e.Keys && Checksum !in a.Keys + b.Keys + c.Keys + d.Keys + e.Keys
    ensures var once := Stamp(r + (a + b + c + d + e), sha);
      Holds(once, a) && Holds(once, b) && Holds(once, c) && Holds(once, d) && Holds(once, e)
  {
    FilledIn(r, a + b + c + d + e, sha);
  }

  /** A nut filled in, column by column. */
  ghost predicate NutColumns(r: Record, size: ThreadSize, threads: seq<Thread>, c: Record, t: Tools)
    requires Get(r, SourceStandard).Text?
  {
    NutSize(r, size, c) && NutBearing(r, AreaOf(threads, size), c, t) && NutLock(r, c) && NutCare(c) && NutUse(r, c)
  }

  lemma NutFilled(r: Record, size: ThreadSize, threads: seq<Thread>, corners: Value, t: Tools)
    requires Get(r, SourceStandard).Text? && PropertyClass in r
    requires CornersOf(Get(r, WidthAcrossFlats), t.round) == Some(corners)
    ensures NutColumns(r, size, threads,
              Stamp(r + NutFields(ReadNut(r), size, AreaOf(threads, size), corners, t.round), t.sha), t)
  {
    var i, area := ReadNut(r), AreaOf(threads, size);
    var once := Stamp(r + NutFields(i, size, area, corners, t.round), t.sha);
    NutFiguresApart();
    NutRestApart();
    NutUseApart();
    FiveParts(r, NutSizeFields(i, size), NutBearingFields(i, area, corners, t.round),
              NutLockFields(i.standard.text, i.locked), NutCareFields(), NutUseFields(i), t.sha);
    NutSizeOf(r, size, once);
    NutBearingOf(r, area, corners, once, t);
    NutLockOf(r, once);
    NutCareOf(once);
    NutUseOf(r, once);
  }

  lemma CornersExactly(flats: Value, round: (real, nat) -> real)
    ensures CornersOf(flats, round).Some? <==> flats.Num? || flats in {Null, Text(""), Flag(false), Items([])}
    ensures CornersOf(flats, round).Some? ==>
      CornersOf(flats, round).value
      == if flats.Num? && flats.num != 0.0 then Num(round(flats.num * 1.1547, 2)) else Null
  {
  }

  lemma NutUpdateIs(i: NutInputs, threads: seq<Thread>, t: Tools)
    ensures NutUpdate(i, threads, t).Some?
       <==> && i.thread.Some? && ParseThread(i.thread.value, threads, t.number).Some?
            && CornersOf(i.flats, t.round).Some? && i.standard.Text? && i.propertyClass.Some?
    ensures NutUpdate(i, threads, t).Some? ==>
      var size := ParseThread(i.thread.value, threads, t.number).value;
      NutUpdate(i, threads, t)
      == Some(NutFields(i, size, AreaOf(threads, size), CornersOf(i.flats, t.round).value, t.round))
  {
  }

  lemma LegacyNutOf(r: Record)
    ensures LegacyOf(r, NUT_STANDARDS) <==> LegacyNut(r)
  {
  }

  lemma NutReadableExactly(r: Record, threads: seq<Thread>, t: Tools)
    requires Get(r, SourceStandard).Text?
    ensures NutUpdate(ReadNut(r), threads, t).Some? <==> NutReadable(r, threads, t)
  {
    NutUpdateIs(ReadNut(r), threads, t);
    CornersExactly(Get(r, WidthAcrossFlats), t.round);
  }

  /** The backfill raises exactly on a legacy nut it cannot read, and fills in exactly these columns. */
  lemma NutFilledExactly(r: Record, threads: seq<Thread>, t: Tools)
    ensures !LegacyNut(r) ==> FillNut(r, threads, t) == Some(r)
    ensures LegacyNut(r) ==> (FillNut(r, threads, t).Some? <==> NutReadable(r, threads, t))
    ensures LegacyNut(r) && NutReadable(r, threads, t) && FillNut(r, threads, t).Some? ==>
      NutColumns(r, ParseThread(r[ThreadName].text, threads, t.number).value, threads, FillNut(r, threads, t).value, t)
  {
    LegacyNutOf(r);
    if LegacyNut(r) {
      NutReadableExactly(r, threads, t);
      if NutReadable(r, threads, t) {
        NutUpdateIs(ReadNut(r), threads, t);
        NutFilled(r, ParseThread(r[ThreadName].text, threads, t.number).value, threads,
                  CornersOf(Get(r, WidthAcrossFlats), t.round).value, t);
      }
    }
  }
}
