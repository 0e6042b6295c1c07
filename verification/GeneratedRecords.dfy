/**
 The bolts and nuts that the generator adds (tools/generate_faz2_4_1b_bolt_nut_records.py): which
 ones, under which ids, and what each column is made from. The purely descriptive columns are an
 arbitrary function.
 */
module GeneratedRecords {
  import opened LegacyBackfill
  import opened LibraryRecords
  import opened Options
  import opened Sorting
  import opened Text

  // ------------------------------------------------------------------ catalogue

  const PRIORITY: seq<nat> := [3, 4, 5, 6, 8, 10, 12, 14, 16, 18, 20, 22, 24, 27, 30, 33, 36]
  const STRUCTURAL: seq<nat> := [12, 16, 20, 24, 27, 30, 36]
  const NICHE: seq<nat> := [8, 10, 12, 16, 20, 24]

  function Prefix(s: Series): string {
    match s
    case Iso4014 => "BOLT-ISO4014-M"
    case Din931 => "BOLT-DIN931-M"
    case Din933 => "BOLT-DIN933-M"
    case Din912 => "BOLT-DIN912-M"
    case Iso4162 => "BOLT-ISO4162-M"
    case En14399 => "BOLT-EN14399-M"
    case Stud => "BOLT-STUD-ISO898-1-M"
    case SetScrew => "BOLT-SETSCREW-ISO4026-M"
    case Shoulder => "BOLT-SHOULDER-ISO7379-M"
    case ReducedShankBolt => "BOLT-REDUCEDSHANK-M"
    case FineIso4017 => "BOLT-FINE-ISO4017-M"
    case Iso4035 => "NUT-ISO4035-M"
    case Iso4161 => "NUT-ISO4161-M"
    case Iso7042 => "NUT-ISO7042-M"
    case En14399Nut => "NUT-EN14399-M"
    case WeldNut => "NUT-WELD-DIN929-M"
    case SquareNut => "NUT-SQUARE-DIN557-M"
    case CapNut => "NUT-CAP-DIN1587-M"
  }

  function IdOf(b: Blueprint): string {
    Prefix(b.series) + NatToString(b.d)
  }

  lemma PrefixesDiffer(s: Series, u: Series)
    requires Prefix(s) == Prefix(u)
    ensures s == u
  {
    assert |Prefix(s)| == |Prefix(u)|;
    assert forall i :: 0 <= i < |Prefix(s)| ==> Prefix(s)[i] == Prefix(u)[i];
  }

  lemma PrefixEndsInM(s: Series)
    ensures |Prefix(s)| > 0 && Prefix(s)[|Prefix(s)| - 1] == 'M'
  {
  }

  /** A numeral holds no M, so the prefix ends at the last M of the id. */
  lemma LastM(b: Blueprint)
    ensures RFind('M', IdOf(b)) == |Prefix(b.series)| - 1
  {
    PrefixEndsInM(b.series);
    ParseNatToString(b.d);
    var m := |Prefix(b.series)|;
    forall i | m <= i < |IdOf(b)| ensures IdOf(b)[i] != 'M' {
      assert IsDigit(NatToString(b.d)[i - m]);
    }
    assert IdOf(b)[m - 1] == 'M';
  }

  lemma IdInjective(a: Blueprint, b: Blueprint)
    requires IdOf(a) == IdOf(b)
    ensures a == b
  {
    LastM(a);
    LastM(b);
    var m := |Prefix(a.series)|;
    assert IdOf(a)[..m] == Prefix(a.series) && IdOf(b)[..m] == Prefix(b.series);
    assert IdOf(a)[m..] == NatToString(a.d) && IdOf(b)[m..] == NatToString(b.d);
    PrefixesDiffer(a.series, b.series);
    NatToStringInjective(a.d, b.d);
  }

  /** One blueprint for each diameter and each series offered at it. */
  function Lay(ds: seq<nat>, offered: nat -> seq<Series>): seq<Blueprint> {
    if ds == [] then []
    else Map(offered(ds[0]), (s: Series) => Blueprint(s, ds[0])) + Lay(ds[1..], offered)
  }

  function EverySize(d: nat): seq<Series> {
    [Iso4014, Din931, Din933, Din912, Iso4162]
  }

  function Structural(d: nat): seq<Series> {
    [En14399]
  }

  function NicheBolts(threads: seq<Thread>): nat -> seq<Series> {
    d => [Stud, SetScrew, Shoulder, ReducedShankBolt]
         + (if Lookup(threads, d as real, "Fine").Some? then [FineIso4017] else [])
  }

  function NutsEverySize(d: nat): seq<Series> {
    [Iso4035, Iso4161, Iso7042]
  }

  function StructuralNuts(d: nat): seq<Series> {
    [En14399Nut]
  }

  function NicheNuts(d: nat): seq<Series> {
    [WeldNut, SquareNut, CapNut]
  }

  function BoltCatalogue(threads: seq<Thread>): seq<Blueprint> {
    Lay(PRIORITY, EverySize) + Lay(STRUCTURAL, Structural) + Lay(NICHE, NicheBolts(threads))
  }

  function NutCatalogue(): seq<Blueprint> {
    Lay(PRIORITY, NutsEverySize) + Lay(STRUCTURAL, StructuralNuts) + Lay(NICHE, NicheNuts)
  }

  lemma {:induction false} LayMember(ds: seq<nat>, offered: nat -> seq<Series>, b: Blueprint)
    ensures b in Lay(ds, offered) ==> b.d in ds && b.series in offered(b.d)
  {
    if ds != [] { LayMember(ds[1..], offered, b); }
  }

  lemma {:induction false} LayDistinct(ds: seq<nat>, offered: nat -> seq<Series>)
    requires Distinct(ds) && forall d :: Distinct(offered(d))
    ensures Distinct(Lay(ds, offered))
  {
    if ds != [] {
      LayDistinct(ds[1..], offered);
      var first := Map(offered(ds[0]), (s: Series) => Blueprint(s, ds[0]));
      forall b | b in Lay(ds[1..], offered) ensures b !in first {
        LayMember(ds[1..], offered, b);
      }
      assert Distinct(offered(ds[0]));
      assert Distinct(first);
      DistinctConcat(first, Lay(ds[1..], offered));
    }
  }

  lemma DistinctConcat<T>(xs: seq<T>, ys: seq<T>)
    requires Distinct(xs) && Distinct(ys) && forall y :: y in ys ==> y !in xs
    ensures Distinct(xs + ys)
  {
    var zs := xs + ys;
    forall i, j | 0 <= i < j < |zs| ensures zs[i] != zs[j] {
      if j < |xs| {
        assert zs[i] == xs[i] && zs[j] == xs[j];
      } else if i < |xs| {
        assert zs[i] == xs[i] && zs[j] == ys[j - |xs|];
        assert ys[j - |xs|] in ys;
      } else {
        assert zs[i] == ys[i - |xs|] && zs[j] == ys[j - |xs|];
      }
    }
  }

  ghost predicate NoRepeats(offered: nat -> seq<Series>) {
    forall d :: Distinct(offered(d))
  }

  /** The two layouts offer no series in common. */
  ghost predicate Apart(some: nat -> seq<Series>, others: nat -> seq<Series>) {
    forall d, e, s :: s in some(d) ==> s !in others(e)
  }

  lemma LayApart(ds: seq<nat>, offered: nat -> seq<Series>, es: seq<nat>, others: nat -> seq<Series>)
    requires Apart(offered, others)
    ensures forall b :: b in Lay(es, others) ==> b !in Lay(ds, offered)
  {
    forall b | b in Lay(es, others) ensures b !in Lay(ds, offered) {
      LayMember(ds, offered, b);
      LayMember(es, others, b);
    }
  }

  lemma ThreeLayoutsDistinct(ds: seq<nat>, a: nat -> seq<Series>, es: seq<nat>, b: nat -> seq<Series>,
                             fs: seq<nat>, c: nat -> seq<Series>)
    requires Apart(a, b) && Apart(a, c) && Apart(b, c)
    requires Distinct(ds) && Distinct(es) && Distinct(fs)
    requires NoRepeats(a) && NoRepeats(b) && NoRepeats(c)
    ensures Distinct(Lay(ds, a) + Lay(es, b) + Lay(fs, c))
  {
    LayDistinct(ds, a);
    LayDistinct(es, b);
    LayDistinct(fs, c);
    LayApart(ds, a, es, b);
    LayApart(ds, a, fs, c);
    LayApart(es, b, fs, c);
    DistinctConcat(Lay(ds, a), Lay(es, b));
    DistinctConcat(Lay(ds, a) + Lay(es, b), Lay(fs, c));
  }

  lemma DiametersDistinct()
    ensures Distinct(PRIORITY) && Distinct(STRUCTURAL) && Distinct(NICHE)
  {
  }

  lemma BoltOffers(threads: seq<Thread>)
    ensures NoRepeats(EverySize) && NoRepeats(Structural) && NoRepeats(NicheBolts(threads))
    ensures Apart(EverySize, Structural) && Apart(EverySize, NicheBolts(threads))
    ensures Apart(Structural, NicheBolts(threads))
  {
  }

  lemma NutOffers()
    ensures NoRepeats(NutsEverySize) && NoRepeats(StructuralNuts) && NoRepeats(NicheNuts)
    ensures Apart(NutsEverySize, StructuralNuts) && Apart(NutsEverySize, NicheNuts) && Apart(StructuralNuts, NicheNuts)
  {
  }

  /** No two generated bolts share an id, nor two nuts, whatever the thread library holds. */
  lemma BoltCatalogueDistinct(threads: seq<Thread>)
    ensures Distinct(BoltCatalogue(threads))
  {
    DiametersDistinct();
    BoltOffers(threads);
    ThreeLayoutsDistinct(PRIORITY, EverySize, STRUCTURAL, Structural, NICHE, NicheBolts(threads));
  }

  lemma NutCatalogueDistinct()
    ensures Distinct(NutCatalogue())
  {
    DiametersDistinct();
    NutOffers();
    ThreeLayoutsDistinct(PRIORITY, NutsEverySize, STRUCTURAL, StructuralNuts, NICHE, NicheNuts);
  }

  const SIZES: set<nat> := {3, 4, 5, 6, 8, 10, 12, 14, 16, 18, 20, 22, 24, 27, 30, 33, 36}

  lemma {:induction false} LayOffers(ds: seq<nat>, offered: nat -> seq<Series>, b: Blueprint)
    requires b.d in ds && b.series in offered(b.d)
    ensures b in Lay(ds, offered)
  {
    if b.d == ds[0] {
      var first := Map(offered(ds[0]), (s: Series) => Blueprint(s, ds[0]));
      var i :| 0 <= i < |offered(ds[0])| && offered(ds[0])[i] == b.series;
      assert first[i] == b;
    } else {
      LayOffers(ds[1..], offered, b);
    }
  }

  lemma LayExactly(ds: seq<nat>, offered: nat -> seq<Series>, b: Blueprint)
    ensures b in Lay(ds, offered) <==> b.d in ds && b.series in offered(b.d)
  {
    LayMember(ds, offered, b);
    if b.d in ds && b.series in offered(b.d) { LayOffers(ds, offered, b); }
  }

  /** Diameter by diameter, at each the series in the order offered. */
  lemma {:induction false} LayInOrder(ds: seq<nat>, d: nat, offered: nat -> seq<Series>)
    ensures Lay(ds + [d], offered) == Lay(ds, offered) + Map(offered(d), (s: Series) => Blueprint(s, d))
  {
    if ds == [] {
      assert [d][1..] == [] && ds + [d] == [d];
    } else {
      LayInOrder(ds[1..], d, offered);
      assert (ds + [d])[1..] == ds[1..] + [d];
    }
  }

  lemma ThreeLayoutsExactly(ds: seq<nat>, a: nat -> seq<Series>, es: seq<nat>, b: nat -> seq<Series>,
                            fs: seq<nat>, c: nat -> seq<Series>, x: Blueprint)
    ensures x in Lay(ds, a) + Lay(es, b) + Lay(fs, c)
       <==> || (x.d in ds && x.series in a(x.d)) || (x.d in es && x.series in b(x.d))
            || (x.d in fs && x.series in c(x.d))
  {
    LayExactly(ds, a, x);
    LayExactly(es, b, x);
    LayExactly(fs, c, x);
  }

  lemma SizesExactly(d: nat)
    ensures d in PRIORITY <==> d in SIZES
    ensures d in STRUCTURAL <==> d in {12, 16, 20, 24, 27, 30, 36}
    ensures d in NICHE <==> d in {8, 10, 12, 16, 20, 24}
  {
  }

  lemma BoltSeriesExactly(threads: seq<Thread>, d: nat, s: Series)
    ensures s in EverySize(d) <==> s in {Iso4014, Din931, Din933, Din912, Iso4162}
    ensures s in Structural(d) <==> s == En14399
    ensures s in NicheBolts(threads)(d)
       <==> || s in {Stud, SetScrew, Shoulder, ReducedShankBolt}
            || (s == FineIso4017 && Lookup(threads, d as real, "Fine").Some?)
  {
  }

  /** Which bolts are generated. */
  lemma BoltCatalogueExactly(threads: seq<Thread>, b: Blueprint)
    ensures b in BoltCatalogue(threads)
       <==> || (b.d in SIZES && b.series in {Iso4014, Din931, Din933, Din912, Iso4162})
            || (b.d in {12, 16, 20, 24, 27, 30, 36} && b.series == En14399)
            || (b.d in {8, 10, 12, 16, 20, 24}
                && (b.series in {Stud, SetScrew, Shoulder, ReducedShankBolt}
                    || (b.series == FineIso4017 && Lookup(threads, b.d as real, "Fine").Some?)))
  {
    ThreeLayoutsExactly(PRIORITY, EverySize, STRUCTURAL, Structural, NICHE, NicheBolts(threads), b);
    SizesExactly(b.d);
    BoltSeriesExactly(threads, b.d, b.series);
  }

  lemma NutSeriesExactly(d: nat, s: Series)
    ensures s in NutsEverySize(d) <==> s in {Iso4035, Iso4161, Iso7042}
    ensures s in StructuralNuts(d) <==> s == En14399Nut
    ensures s in NicheNuts(d) <==> s in {WeldNut, SquareNut, CapNut}
  {
  }

  /** Which nuts are generated. */
  lemma NutCatalogueExactly(b: Blueprint)
    ensures b in NutCatalogue()
       <==> || (b.d in SIZES && b.series in {Iso4035, Iso4161, Iso7042})
            || (b.d in {12, 16, 20, 24, 27, 30, 36} && b.series == En14399Nut)
            || (b.d in {8, 10, 12, 16, 20, 24} && b.series in {WeldNut, SquareNut, CapNut})
  {
    ThreeLayoutsExactly(PRIORITY, NutsEverySize, STRUCTURAL, StructuralNuts, NICHE, NicheNuts, b);
    SizesExactly(b.d);
    NutSeriesExactly(b.d, b.series);
  }

  // ------------------------------------------------------------ generated bolts

  /** Where the head dimensions come from: another standard's record, or ratios. */
  datatype Head = FromTemplate(standard: string) | Estimated

  datatype Spec = Spec(standard: string, organization: string, family: string, headType: string,
                       drive: string, propertyClass: string, head: Head)

  function BoltSpec(s: Series): Spec {
    var external, internal := "Hex (external)", "Hex socket (internal)";
    match s
    case Iso4014 => Spec("ISO 4014", "ISO", "Hexagon head bolt", "Hex", external, "8.8", FromTemplate("ISO 4017"))
    case Din931 => Spec("DIN 931", "DIN", "Hexagon head bolt", "Hex", external, "8.8", FromTemplate("ISO 4017"))
    case Din933 => Spec("DIN 933", "DIN", "Hexagon head screw", "Hex", external, "8.8", FromTemplate("ISO 4017"))
    case Din912 => Spec("DIN 912", "DIN", "Socket head cap screw", "Socket", internal, "8.8", FromTemplate("ISO 4762"))
    case En14399 => Spec("EN 14399-3", "EN", "Structural bolt", "Hex", external, "10.9", FromTemplate("ISO 4017"))
    case Stud => Spec("ISO 898-1", "ISO", "Stud bolt", "Headless", "", "8.8", Estimated)
    case SetScrew => Spec("ISO 4026", "ISO", "Set screw", "Headless", internal, "8.8", Estimated)
    case Shoulder => Spec("ISO 7379", "ISO", "Shoulder bolt", "Socket", internal, "8.8", Estimated)
    case ReducedShankBolt => Spec("DIN 7968", "DIN", "Reduced shank bolt", "Hex", external, "8.8", Estimated)
    case FineIso4017 =>
      Spec("ISO 4017", "ISO", "Hexagon head screw (fine thread)", "Hex", external, "8.8", Estimated)
    case _ => Spec("ISO 4162", "ISO", "Flange bolt", "Flange", external, "8.8", Estimated)
  }

  predicate IsTemplate(r: Record, standard: string) {
    Get(r, SourceStandard) == Text(standard)
  }

  /** `_existing_by_standard(...)[d]`: the last record of the standard at that diameter. */
  function TemplateOf(existing: seq<Record>, standard: string, d: nat): Option<Record> {
    if existing == [] then None
    else
      var last := existing[|existing| - 1];
      if IsTemplate(last, standard) && Get(last, DiameterMm) == Num(d as real) then Some(last)
      else TemplateOf(existing[..|existing| - 1], standard, d)
  }

  /** Building the two template dictionaries raises when a record has no diameter. */
  predicate TemplatesReadable(existing: seq<Record>) {
    forall r :: r in existing && (IsTemplate(r, "ISO 4017") || IsTemplate(r, "ISO 4762")) ==> DiameterMm in r
  }

  const COPIED: set<Field> := {
    HeadAcrossFlats, HeadAcrossCorners, HeadHeight, WasherFaceDiameter, BearingDiameter, RecommendedHole,
    ClearanceHole, TapDrill, ThreadEngagement, Weight}

  const HEAD_WRITTEN := {
    HeadAcrossFlats, HeadAcrossCorners, HeadHeight, SocketSize, WasherFaceDiameter, BearingDiameter}
  const HOLE_WRITTEN := {
    RecommendedHole, ClearanceHole, TapDrill, ThreadEngagement, Weight, WrenchSize, UnderHeadBearing}

  function ReusedHead(r: Record): (fields: Record)
    requires COPIED <= r.Keys
    ensures fields.Keys == HEAD_WRITTEN
  {
    map[
      HeadAcrossFlats := r[HeadAcrossFlats], HeadAcrossCorners := r[HeadAcrossCorners], HeadHeight := r[HeadHeight],
      SocketSize := Get(r, SocketSize), WasherFaceDiameter := r[WasherFaceDiameter],
      BearingDiameter := r[BearingDiameter]]
  }

  function ReusedHoles(r: Record, headType: string): (fields: Record)
    requires COPIED <= r.Keys
    ensures fields.Keys == HOLE_WRITTEN
  {
    map[
      RecommendedHole := r[RecommendedHole], ClearanceHole := r[ClearanceHole], TapDrill := r[TapDrill],
      ThreadEngagement := r[ThreadEngagement], Weight := r[Weight],
      WrenchSize := if headType != "Socket" then r[HeadAcrossFlats] else Null, UnderHeadBearing := r[BearingDiameter]]
  }

  /** Width across flats, estimated from the diameter. */
  function Flats(d: real, headType: string, round: (real, nat) -> real): Value {
    if headType != "Headless" then Num(round(1.6 * d + 1.0, 2)) else Null
  }

  function EstimatedHead(d: real, headType: string, round: (real, nat) -> real): (fields: Record)
    ensures fields.Keys == HEAD_WRITTEN
  {
    var flats := Flats(d, headType, round);
    map[
      HeadAcrossFlats := flats,
      HeadAcrossCorners := if Falsy(flats) then Null else Num(round(round(1.6 * d + 1.0, 2) * 1.1547, 2)),
      HeadHeight := if headType != "Headless" then Num(round(0.65 * d, 2)) else Null,
      SocketSize := if headType == "Socket" then Num(round(0.5 * d, 1)) else Null,
      WasherFaceDiameter := flats, BearingDiameter := flats]
  }

  function EstimatedWeight(d: real, round: (real, nat) -> real): real {
    round(0.00061655 * (d * d) * (1.5 * d + 20.0), 4)
  }

  function EstimatedHoles(d: real, minor: real, headType: string, round: (real, nat) -> real): (fields: Record)
    ensures fields.Keys == HOLE_WRITTEN
  {
    var flats := Flats(d, headType, round);
    map[
      RecommendedHole := Num(round(d + 1.0, 1)), ClearanceHole := Num(round(d + 1.1, 1)),
      TapDrill := Num(round(minor, 1)), ThreadEngagement := Num(d), Weight := Num(EstimatedWeight(d, round)),
      WrenchSize := flats, UnderHeadBearing := flats]
  }

  /**
   Copied from the template, which must have all but the socket size; or estimated, unless the
   weight rounds to nothing.
   */
  function HeadOf(b: Blueprint, minor: real, existing: seq<Record>, t: Tools): (fields: Option<Record>)
    ensures fields.Some? ==> fields.value.Keys == HEAD_WRITTEN + HOLE_WRITTEN
  {
    var headType, d := BoltSpec(b.series).headType, b.d as real;
    match BoltSpec(b.series).head
    case Estimated =>
      if EstimatedWeight(d, t.round) <= 0.0 then None
      else Some(EstimatedHead(d, headType, t.round) + EstimatedHoles(d, minor, headType, t.round))
    case FromTemplate(standard) =>
      var template :- TemplateOf(existing, standard, b.d);
      if COPIED <= template.Keys then Some(ReusedHead(template) + ReusedHoles(template, headType)) else None
  }

  /** What a bolt record is looked up by. */
  function LookupColumns(b: Blueprint): Record {
    map[SourceStandard := Text(BoltSpec(b.series).standard), DiameterMm := Num(b.d as real)]
  }

  const STANDING_WRITTEN := {
    ValidationStatus, ApprovalStatus, Designation, ThreadName, PropertyClass, VerificationStatus, RecordStatus}
  const FAMILY_WRITTEN := {
    BoltFamily, StandardOrganization, DriveType, NominalDiameter, NominalLength, ThreadedLength, ThreadTolerance}
  const THREAD_WRITTEN := {
    Pitch, CoarseOrFine, ReducedShank, PitchCoarse, PitchFine, StressArea, MinorDiameter, PitchDiameter}
  const LIMITS_WRITTEN := {MinTemperature, MaxTemperature}

  function StandingFields(b: Blueprint, thread: Thread): (fields: Record)
    ensures fields.Keys == STANDING_WRITTEN
  {
    var spec, size := BoltSpec(b.series), if b.series.FineIso4017? then thread.designation else "M" + NatToString(b.d);
    map[
      ValidationStatus := Text(if spec.head.Estimated? then "provisional" else "reference_only"),
      ApprovalStatus := Text("pending"), Designation := Text(size), ThreadName := Text(size),
      PropertyClass := Text(spec.propertyClass),
      VerificationStatus := Text("unverified"), RecordStatus := Text("draft")]
  }

  function FamilyFields(b: Blueprint, t: Tools): (fields: Record)
    ensures fields.Keys == FAMILY_WRITTEN
  {
    var spec, d := BoltSpec(b.series), b.d as real;
    map[
      BoltFamily := Text(spec.family), StandardOrganization := Text(spec.organization), DriveType := Text(spec.drive),
      NominalDiameter := Num(d), NominalLength := Num(t.round(1.5 * d + 20.0, 1)),
      ThreadedLength := Num(t.round(2.0 * d + 6.0, 1)), ThreadTolerance := Text("6g")]
  }

  function ThreadFields(b: Blueprint, thread: Thread, fine: Option<Thread>, coarse: Thread): (fields: Record)
    ensures fields.Keys == THREAD_WRITTEN
  {
    map[
      Pitch := Num(thread.pitch), CoarseOrFine := Text(if b.series.FineIso4017? then "fine" else "coarse"),
      ReducedShank := if b.series.ReducedShankBolt? then Num(coarse.pitchDiameter) else Null,
      PitchCoarse := Num(thread.pitch), PitchFine := OrNull(if fine.Some? then Some(fine.value.pitch) else None),
      StressArea := Num(thread.stressArea), MinorDiameter := Num(thread.minor),
      PitchDiameter := Num(thread.pitchDiameter)]
  }

  function LimitFields(propertyClass: string): (fields: Record)
    ensures fields.Keys == LIMITS_WRITTEN
  {
    map[MinTemperature := Num(-50.0), MaxTemperature := Num(if propertyClass == "8.8" then 150.0 else 200.0)]
  }

  /** The columns common to every generated bolt. */
  function BoltColumns(b: Blueprint, thread: Thread, fine: Option<Thread>, coarse: Thread, t: Tools): (fields: Record)
    ensures fields.Keys == STANDING_WRITTEN + FAMILY_WRITTEN + THREAD_WRITTEN + STRENGTH_WRITTEN + LIMITS_WRITTEN
  {
    StandingFields(b, thread) + FamilyFields(b, t) + ThreadFields(b, thread, fine, coarse)
    + StrengthFields(Text(BoltSpec(b.series).propertyClass)) + LimitFields(BoltSpec(b.series).propertyClass)
  }

  /** A generated record: tagged, named, and stamped. */
  function Tagged(b: Blueprint, columns: Record, t: Tools): (r: Record)
    ensures Generated(r) && Get(r, Id) == Text(IdOf(b))
  {
    Stamp((t.descriptive(b) + columns)[Version := GENERATED][Id := Text(IdOf(b))], t.sha)
  }

  /** A generated bolt, with what it is looked up by. */
  function TaggedBolt(b: Blueprint, columns: Record, t: Tools): (r: Record)
    ensures Generated(r) && Get(r, Id) == Text(IdOf(b))
    ensures IsTemplate(r, BoltSpec(b.series).standard) && Get(r, DiameterMm) == Num(b.d as real)
  {
    Tagged(b, columns + LookupColumns(b), t)
  }

  function MakeBolt(b: Blueprint, threads: seq<Thread>, existing: seq<Record>, t: Tools): (r: Option<Record>)
    ensures r.Some? ==> Generated(r.value) && Get(r.value, Id) == Text(IdOf(b))
    ensures r.Some? ==> IsTemplate(r.value, BoltSpec(b.series).standard) && Get(r.value, DiameterMm) == Num(b.d as real)
  {
    var coarse :- Lookup(threads, b.d as real, "Coarse");
    var fine := Lookup(threads, b.d as real, "Fine");
    var thread := if b.series.FineIso4017? && fine.Some? then fine.value else coarse;
    var head :- HeadOf(b, thread.minor, existing, t);
    Some(TaggedBolt(b, head + BoltColumns(b, thread, fine, coarse, t), t))
  }

  // ------------------------------------------- what a generated bolt says, column by column

  /** The series whose heads are copied from a template. */
  const COPYING: set<Series> := {Iso4014, Din931, Din933, Din912, En14399}

  ghost predicate Named(b: Blueprint, c: Record, family: Field, prefix: string, standard: string, name: string) {
    && Get(c, Id) == Text(prefix + NatToString(b.d)) && Get(c, SourceStandard) == Text(standard)
    && Get(c, family) == Text(name)
  }

  /** The id, the standard and the family of each series. */
  ghost predicate BoltNamed(b: Blueprint, c: Record) {
    match b.series
    case Iso4014 => Named(b, c, BoltFamily, "BOLT-ISO4014-M", "ISO 4014", "Hexagon head bolt")
    case Din931 => Named(b, c, BoltFamily, "BOLT-DIN931-M", "DIN 931", "Hexagon head bolt")
    case Din933 => Named(b, c, BoltFamily, "BOLT-DIN933-M", "DIN 933", "Hexagon head screw")
    case Din912 => Named(b, c, BoltFamily, "BOLT-DIN912-M", "DIN 912", "Socket head cap screw")
    case Iso4162 => Named(b, c, BoltFamily, "BOLT-ISO4162-M", "ISO 4162", "Flange bolt")
    case En14399 => Named(b, c, BoltFamily, "BOLT-EN14399-M", "EN 14399-3", "Structural bolt")
    case Stud => Named(b, c, BoltFamily, "BOLT-STUD-ISO898-1-M", "ISO 898-1", "Stud bolt")
    case SetScrew => Named(b, c, BoltFamily, "BOLT-SETSCREW-ISO4026-M", "ISO 4026", "Set screw")
    case Shoulder => Named(b, c, BoltFamily, "BOLT-SHOULDER-ISO7379-M", "ISO 7379", "Shoulder bolt")
    case ReducedShankBolt => Named(b, c, BoltFamily, "BOLT-REDUCEDSHANK-M", "DIN 7968", "Reduced shank bolt")
    case FineIso4017 =>
      Named(b, c, BoltFamily, "BOLT-FINE-ISO4017-M", "ISO 4017", "Hexagon head screw (fine thread)")
    case _ => true
  }

  lemma BoltNamedOf(b: Blueprint, c: Record)
    requires Get(c, Id) == Text(IdOf(b)) && IsTemplate(c, BoltSpec(b.series).standard)
    requires Get(c, BoltFamily) == Text(BoltSpec(b.series).family)
    ensures BoltNamed(b, c)
  {
  }

  /** Name, class and standing: nothing generated is approved. */
  ghost predicate BoltStanding(b: Blueprint, thread: Thread, c: Record) {
    var size := if b.series == FineIso4017 then thread.designation else "M" + NatToString(b.d);
    && Get(c, Designation) == Get(c, ThreadName) == Text(size)
    && Get(c, PropertyClass) == Text(if b.series == En14399 then "10.9" else "8.8")
    && Get(c, ValidationStatus) == Text(if b.series in COPYING then "reference_only" else "provisional")
    && Get(c, ApprovalStatus) == Text("pending") && Get(c, RecordStatus) == Text("draft")
    && Get(c, VerificationStatus) == Text("unverified")
  }

  ghost predicate BoltFamilyIs(b: Blueprint, c: Record, t: Tools) {
    var d := b.d as real;
    && Get(c, DriveType)
       == Text(if b.series == Stud then "" else if b.series in {Din912, SetScrew, Shoulder}
               then "Hex socket (internal)" else "Hex (external)")
    && Get(c, StandardOrganization)
       == Text(if b.series in {Din931, Din933, Din912, ReducedShankBolt} then "DIN" else if b.series == En14399
               then "EN" else "ISO")
    && Get(c, NominalDiameter) == Num(d) && Get(c, ThreadTolerance) == Text("6g")
    && Get(c, NominalLength) == Num(t.round(1.5 * d + 20.0, 1))
    && Get(c, ThreadedLength) == Num(t.round(2.0 * d + 6.0, 1))
  }

  /** The figures of the thread it is made for, and the pitch of the fine series, if any. */
  ghost predicate BoltThread(b: Blueprint, thread: Thread, fine: Option<Thread>, coarse: Thread, c: Record) {
    && Get(c, Pitch) == Get(c, PitchCoarse) == Num(thread.pitch)
    && Get(c, PitchFine) == (if fine.Some? then Num(fine.value.pitch) else Null)
    && Get(c, StressArea) == Num(thread.stressArea) && Get(c, MinorDiameter) == Num(thread.minor)
    && Get(c, PitchDiameter) == Num(thread.pitchDiameter)
    && Get(c, CoarseOrFine) == Text(if b.series == FineIso4017 then "fine" else "coarse")
    && Get(c, ReducedShank) == if b.series == ReducedShankBolt then Num(coarse.pitchDiameter) else Null
  }

  ghost predicate BoltLimits(b: Blueprint, c: Record) {
    && Get(c, MinTemperature) == Num(-50.0)
    && Get(c, MaxTemperature) == Num(if b.series == En14399 then 200.0 else 150.0)
  }

  /** The head of the template, but a socket takes no wrench. */
  ghost predicate CopiedHead(template: Record, socket: bool, c: Record) {
    && (forall f :: f in COPIED ==> f in template && Get(c, f) == template[f])
    && Get(c, SocketSize) == Get(template, SocketSize)
    && Get(c, WrenchSize) == (if socket then Null else Get(template, HeadAcrossFlats))
    && Get(c, UnderHeadBearing) == Get(template, BearingDiameter)
  }

  /** A head in proportion to the diameter; a headless bolt has no width and no height. */
  ghost predicate EstimatedHeadIs(d: real, headless: bool, socket: bool, c: Record, t: Tools) {
    var width := t.round(1.6 * d + 1.0, 2);
    var flats := if headless then Null else Num(width);
    && Get(c, HeadAcrossFlats) == Get(c, WasherFaceDiameter) == Get(c, BearingDiameter) == flats
    && Get(c, HeadAcrossCorners)
       == (if headless || width == 0.0 then Null else Num(t.round(width * 1.1547, 2)))
    && Get(c, HeadHeight) == (if headless then Null else Num(t.round(0.65 * d, 2)))
    && Get(c, SocketSize) == (if socket then Num(t.round(0.5 * d, 1)) else Null)
  }

  ghost predicate EstimatedHolesIs(d: real, minor: real, headless: bool, c: Record, t: Tools) {
    var flats := if headless then Null else Num(t.round(1.6 * d + 1.0, 2));
    && Get(c, WrenchSize) == Get(c, UnderHeadBearing) == flats
    && Get(c, RecommendedHole) == Num(t.round(d + 1.0, 1)) && Get(c, ClearanceHole) == Num(t.round(d + 1.1, 1))
    && Get(c, TapDrill) == Num(t.round(minor, 1)) && Get(c, ThreadEngagement) == Num(d)
    && Get(c, Weight) == Num(t.round(0.00061655 * (d * d) * (1.5 * d + 20.0), 4))
  }

  lemma BoltStandingOf(b: Blueprint, thread: Thread, c: Record)
    requires Holds(c, StandingFields(b, thread))
    ensures BoltStanding(b, thread, c)
  {
  }

  lemma BoltFamilyOf(b: Blueprint, c: Record, t: Tools)
    requires Holds(c, FamilyFields(b, t))
    ensures BoltFamilyIs(b, c, t) && Get(c, BoltFamily) == Text(BoltSpec(b.series).family)
  {
  }

  lemma BoltThreadOf(b: Blueprint, thread: Thread, fine: Option<Thread>, coarse: Thread, c: Record)
    requires Holds(c, ThreadFields(b, thread, fine, coarse))
    ensures BoltThread(b, thread, fine, coarse, c)
  {
  }

  lemma BoltLimitsOf(b: Blueprint, c: Record)
    requires Holds(c, LimitFields(BoltSpec(b.series).propertyClass))
    ensures BoltLimits(b, c)
  {
  }

  lemma HeadCopied(template: Record, c: Record)
    requires COPIED <= template.Keys && Holds(c, ReusedHead(template))
    ensures forall f :: f in {HeadAcrossFlats, HeadAcrossCorners, HeadHeight, WasherFaceDiameter, BearingDiameter} ==>
      Get(c, f) == template[f]
    ensures Get(c, SocketSize) == Get(template, SocketSize)
  {
  }

  lemma HolesCopied(template: Record, headType: string, c: Record)
    requires COPIED <= template.Keys && Holds(c, ReusedHoles(template, headType))
    ensures forall f :: f in {RecommendedHole, ClearanceHole, TapDrill, ThreadEngagement, Weight} ==>
      Get(c, f) == template[f]
    ensures Get(c, WrenchSize) == if headType == "Socket" then Null else Get(template, HeadAcrossFlats)
    ensures Get(c, UnderHeadBearing) == Get(template, BearingDiameter)
  {
  }

  lemma CopiedHeadOf(template: Record, headType: string, c: Record)
    requires COPIED <= template.Keys && Holds(c, ReusedHead(template)) && Holds(c, ReusedHoles(template, headType))
    ensures CopiedHead(template, headType == "Socket", c)
  {
    HeadCopied(template, c);
    HolesCopied(template, headType, c);
    assert COPIED == {HeadAcrossFlats, HeadAcrossCorners, HeadHeight, WasherFaceDiameter, BearingDiameter}
                     + {RecommendedHole, ClearanceHole, TapDrill, ThreadEngagement, Weight};
  }

  lemma EstimatedHeadOf(d: real, headType: string, c: Record, t: Tools)
    requires Holds(c, EstimatedHead(d, headType, t.round))
    ensures EstimatedHeadIs(d, headType == "Headless", headType == "Socket", c, t)
  {
  }

  lemma EstimatedHolesOf(d: real, minor: real, headType: string, c: Record, t: Tools)
    requires Holds(c, EstimatedHoles(d, minor, headType, t.round))
    ensures EstimatedHolesIs(d, minor, headType == "Headless", c, t)
  {
  }

  /** Which group of columns a field of a bolt belongs to. */
  function Group(f: Field): nat {
    match f
    case HeadAcrossFlats | HeadAcrossCorners | HeadHeight | SocketSize | WasherFaceDiameter | BearingDiameter => 1
    case RecommendedHole | ClearanceHole | TapDrill | ThreadEngagement | Weight | WrenchSize | UnderHeadBearing => 2
    case ValidationStatus | ApprovalStatus | Designation | ThreadName | PropertyClass | VerificationStatus => 3
    case RecordStatus => 3
    case BoltFamily | StandardOrganization | DriveType | NominalDiameter | NominalLength | ThreadedLength => 4
    case ThreadTolerance => 4
    case Pitch | CoarseOrFine | ReducedShank | PitchCoarse | PitchFine | StressArea | MinorDiameter => 5
    case PitchDiameter => 5
    case TensileStrength | ProofStrength | YieldStrength | Elongation | Hardness => 6
    case MinTemperature | MaxTemperature => 7
    case SourceStandard | DiameterMm => 8
    case Version | Id | Checksum => 9
    case _ => 0
  }

  /** All columns are of the groups from `low` to `high`. */
  ghost predicate InGroups(columns: Record, low: nat, high: nat) {
    forall f :: f in columns ==> low <= Group(f) <= high
  }

  lemma HoldsBoth(c: Record, a: Record, b: Record, low: nat, middle: nat, high: nat)
    requires Holds(c, a + b) && InGroups(a, low, middle) && InGroups(b, middle + 1, high) && low <= middle < high
    ensures Holds(c, a) && Holds(c, b) && InGroups(a + b, low, high)
  {
    forall f | f in a ensures Get(c, f) == a[f] { assert f in a + b && (a + b)[f] == a[f]; }
    forall f | f in b ensures Get(c, f) == b[f] { assert f in a + b && (a + b)[f] == b[f]; }
  }

  lemma TogetherInGroups(a: Record, b: Record, low: nat, middle: nat, high: nat)
    requires InGroups(a, low, middle) && InGroups(b, middle + 1, high) && low <= middle < high
    ensures InGroups(a + b, low, high)
  {
  }

  lemma TaggedHolds(b: Blueprint, columns: Record, t: Tools)
    requires Version !in columns && Id !in columns && Checksum !in columns
    ensures Holds(Tagged(b, columns, t), columns)
  {
  }

  lemma HeadGroups(f: Field)
    ensures f in HEAD_WRITTEN ==> Group(f) == 1
    ensures f in HOLE_WRITTEN ==> Group(f) == 2
  {
  }

  lemma NameGroups(f: Field)
    ensures f in STANDING_WRITTEN ==> Group(f) == 3
    ensures f in FAMILY_WRITTEN ==> Group(f) == 4
  {
  }

  lemma ThreadGroup(f: Field)
    ensures f in THREAD_WRITTEN ==> Group(f) == 5
  {
  }

  lemma FigureGroups(f: Field)
    ensures f in STRENGTH_WRITTEN ==> Group(f) == 6
    ensures f in LIMITS_WRITTEN ==> Group(f) == 7
  {
  }

  lemma HeadInGroups(head: Record)
    requires head.Keys == HEAD_WRITTEN + HOLE_WRITTEN
    ensures InGroups(head, 1, 2)
  {
    forall f | f in head ensures 1 <= Group(f) <= 2 { HeadGroups(f); }
  }

  function WrittenIn(group: nat): set<Field> {
    match group
    case 3 => STANDING_WRITTEN
    case 4 => FAMILY_WRITTEN
    case 5 => THREAD_WRITTEN
    case 6 => STRENGTH_WRITTEN
    case _ => LIMITS_WRITTEN
  }

  lemma PartInGroup(part: Record, group: nat)
    requires 3 <= group <= 7 && part.Keys == WrittenIn(group)
    ensures InGroups(part, group, group)
  {
    forall f | f in part ensures Group(f) == group {
      NameGroups(f);
      ThreadGroup(f);
      FigureGroups(f);
    }
  }

  /** Parts of different groups, put together and tagged, are each still there. */
  lemma PartsKept(b: Blueprint, h: Record, p3: Record, p4: Record, p5: Record, p6: Record, p7: Record, p8: Record,
                  t: Tools)
    requires InGroups(h, 1, 2) && InGroups(p3, 3, 3) && InGroups(p4, 4, 4) && InGroups(p5, 5, 5)
    requires InGroups(p6, 6, 6) && InGroups(p7, 7, 7) && InGroups(p8, 8, 8)
    ensures var c := Tagged(b, h + (p3 + p4 + p5 + p6 + p7) + p8, t);
      Holds(c, h) && Holds(c, p3) && Holds(c, p4) && Holds(c, p5) && Holds(c, p6) && Holds(c, p7)
  {
    TogetherInGroups(p3, p4, 3, 3, 4);
    TogetherInGroups(p3 + p4, p5, 3, 4, 5);
    TogetherInGroups(p3 + p4 + p5, p6, 3, 5, 6);
    TogetherInGroups(p3 + p4 + p5 + p6, p7, 3, 6, 7);
    var all := p3 + p4 + p5 + p6 + p7;
    TogetherInGroups(h, all, 1, 2, 7);
    TogetherInGroups(h + all, p8, 1, 7, 8);
    assert forall f :: f in h + all + p8 ==> Group(f) <= 8;
    var c := Tagged(b, h + all + p8, t);
    TaggedHolds(b, h + all + p8, t);
    HoldsBoth(c, h + all, p8, 1, 7, 8);
    HoldsBoth(c, h, all, 1, 2, 7);
    HoldsBoth(c, p3 + p4 + p5 + p6, p7, 3, 6, 7);
    HoldsBoth(c, p3 + p4 + p5, p6, 3, 5, 6);
    HoldsBoth(c, p3 + p4, p5, 3, 4, 5);
    HoldsBoth(c, p3, p4, 3, 3, 4);
  }

  lemma PartsByKeys(b: Blueprint, h: Record, p3: Record, p4: Record, p5: Record, p6: Record, p7: Record, p8: Record,
                    t: Tools)
    requires h.Keys == HEAD_WRITTEN + HOLE_WRITTEN && p8.Keys == {SourceStandard, DiameterMm}
    requires p3.Keys == STANDING_WRITTEN && p4.Keys == FAMILY_WRITTEN && p5.Keys == THREAD_WRITTEN
    requires p6.Keys == STRENGTH_WRITTEN && p7.Keys == LIMITS_WRITTEN
    ensures var c := Tagged(b, h + (p3 + p4 + p5 + p6 + p7) + p8, t);
      Holds(c, h) && Holds(c, p3) && Holds(c, p4) && Holds(c, p5) && Holds(c, p6) && Holds(c, p7)
  {
    HeadInGroups(h);
    PartInGroup(p3, 3);
    PartInGroup(p4, 4);
    PartInGroup(p5, 5);
    PartInGroup(p6, 6);
    PartInGroup(p7, 7);
    PartsKept(b, h, p3, p4, p5, p6, p7, p8, t);
  }

  /** The parts of a generated bolt's columns, held by whatever record. */
  ghost predicate HoldsColumns(b: Blueprint, thread: Thread, fine: Option<Thread>, coarse: Thread,
                               c: Record, t: Tools) {
    && Holds(c, StandingFields(b, thread)) && Holds(c, FamilyFields(b, t))
    && Holds(c, ThreadFields(b, thread, fine, coarse))
    && Holds(c, StrengthFields(Text(BoltSpec(b.series).propertyClass)))
    && Holds(c, LimitFields(BoltSpec(b.series).propertyClass))
  }

  lemma BoltParts(b: Blueprint, thread: Thread, fine: Option<Thread>, coarse: Thread, head: Record, t: Tools)
    requires head.Keys == HEAD_WRITTEN + HOLE_WRITTEN
    ensures var c := TaggedBolt(b, head + BoltColumns(b, thread, fine, coarse, t), t);
      Holds(c, head) && HoldsColumns(b, thread, fine, coarse, c, t)
  {
    PartsByKeys(b, head, StandingFields(b, thread), FamilyFields(b, t), ThreadFields(b, thread, fine, coarse),
                StrengthFields(Text(BoltSpec(b.series).propertyClass)), LimitFields(BoltSpec(b.series).propertyClass),
                LookupColumns(b), t);
  }

  /** When a head can be had: from a complete template, or from an estimate with some weight. */
  ghost predicate HeadAvailable(b: Blueprint, existing: seq<Record>, t: Tools) {
    var d := b.d as real;
    if b.series in COPYING then
      var template := TemplateOf(existing, if b.series == Din912 then "ISO 4762" else "ISO 4017", b.d);
      template.Some? && COPIED <= template.value.Keys
    else t.round(0.00061655 * (d * d) * (1.5 * d + 20.0), 4) > 0.0
  }

  ghost predicate BoltHead(b: Blueprint, minor: real, existing: seq<Record>, c: Record, t: Tools) {
    if b.series in COPYING then
      var template := TemplateOf(existing, if b.series == Din912 then "ISO 4762" else "ISO 4017", b.d);
      template.Some? && CopiedHead(template.value, b.series == Din912, c)
    else
      && EstimatedHeadIs(b.d as real, b.series in {Stud, SetScrew}, b.series == Shoulder, c, t)
      && EstimatedHolesIs(b.d as real, minor, b.series in {Stud, SetScrew}, c, t)
  }

  lemma HeadSource(s: Series)
    ensures BoltSpec(s).head == if s in COPYING then FromTemplate(if s == Din912 then "ISO 4762" else "ISO 4017")
                                else Estimated
    ensures BoltSpec(s).headType == "Headless" <==> s in {Stud, SetScrew}
    ensures BoltSpec(s).headType == "Socket" <==> s in {Din912, Shoulder}
  {
  }

  lemma HeadKept(b: Blueprint, minor: real, existing: seq<Record>, c: Record, t: Tools)
    requires HeadOf(b, minor, existing, t).Some? && Holds(c, HeadOf(b, minor, existing, t).value)
    ensures BoltHead(b, minor, existing, c, t)
  {
    HeadSource(b.series);
    var headType, d := BoltSpec(b.series).headType, b.d as real;
    forall f ensures (f in HEAD_WRITTEN ==> Group(f) == 1) && (f in HOLE_WRITTEN ==> Group(f) == 2) { HeadGroups(f); }
    match BoltSpec(b.series).head
    case Estimated =>
      HoldsBoth(c, EstimatedHead(d, headType, t.round), EstimatedHoles(d, minor, headType, t.round), 1, 1, 2);
      EstimatedHeadOf(d, headType, c, t);
      EstimatedHolesOf(d, minor, headType, c, t);
    case FromTemplate(standard) =>
      var template := TemplateOf(existing, standard, b.d).value;
      HoldsBoth(c, ReusedHead(template), ReusedHoles(template, headType), 1, 1, 2);
      CopiedHeadOf(template, headType, c);
  }

  /** Everything a generated bolt says, from its plan, the thread library and the existing records. */
  ghost predicate BuiltBolt(b: Blueprint, threads: seq<Thread>, existing: seq<Record>, c: Record, t: Tools) {
    var coarse, fine := Lookup(threads, b.d as real, "Coarse"), Lookup(threads, b.d as real, "Fine");
    && coarse.Some?
    && var thread := if b.series == FineIso4017 && fine.Some? then fine.value else coarse.value;
    && BoltNamed(b, c)
    && BoltStanding(b, thread, c) && BoltFamilyIs(b, c, t) && BoltThread(b, thread, fine, coarse.value, c)
    && StrengthColumns(c, Get(c, PropertyClass)) && BoltLimits(b, c) && BoltHead(b, thread.minor, existing, c, t)
  }

  lemma HeadAvailableExactly(b: Blueprint, minor: real, existing: seq<Record>, t: Tools)
    ensures HeadOf(b, minor, existing, t).Some? <==> HeadAvailable(b, existing, t)
  {
    HeadSource(b.series);
  }

  lemma ColumnsSay(b: Blueprint, thread: Thread, fine: Option<Thread>, coarse: Thread, c: Record, t: Tools)
    requires HoldsColumns(b, thread, fine, coarse, c, t)
    ensures BoltStanding(b, thread, c) && BoltFamilyIs(b, c, t) && BoltThread(b, thread, fine, coarse, c)
    ensures StrengthColumns(c, Get(c, PropertyClass)) && BoltLimits(b, c)
    ensures Get(c, BoltFamily) == Text(BoltSpec(b.series).family)
  {
    BoltStandingOf(b, thread, c);
    BoltFamilyOf(b, c, t);
    BoltThreadOf(b, thread, fine, coarse, c);
    BoltLimitsOf(b, c);
    assert Get(c, PropertyClass) == Text(BoltSpec(b.series).propertyClass) by { ClassOf(b, thread, c); }
    StrengthsOf(c, Text(BoltSpec(b.series).propertyClass));
  }

  lemma ClassOf(b: Blueprint, thread: Thread, c: Record)
    requires Holds(c, StandingFields(b, thread))
    ensures Get(c, PropertyClass) == Text(BoltSpec(b.series).propertyClass)
  {
  }

  lemma BuiltBoltSays(b: Blueprint, thread: Thread, fine: Option<Thread>, coarse: Thread, existing: seq<Record>,
                      t: Tools)
    requires HeadOf(b, thread.minor, existing, t).Some?
    ensures var head := HeadOf(b, thread.minor, existing, t).value;
      var c := TaggedBolt(b, head + BoltColumns(b, thread, fine, coarse, t), t);
      && BoltNamed(b, c)
      && BoltStanding(b, thread, c) && BoltFamilyIs(b, c, t) && BoltThread(b, thread, fine, coarse, c)
      && StrengthColumns(c, Get(c, PropertyClass)) && BoltLimits(b, c) && BoltHead(b, thread.minor, existing, c, t)
  {
    var head := HeadOf(b, thread.minor, existing, t).value;
    var c := TaggedBolt(b, head + BoltColumns(b, thread, fine, coarse, t), t);
    BoltParts(b, thread, fine, coarse, head, t);
    ColumnsSay(b, thread, fine, coarse, c, t);
    BoltNamedOf(b, c);
    HeadKept(b, thread.minor, existing, c, t);
  }

  /** A bolt is built exactly when its thread and its head are to be had, and then says exactly that. */
  lemma BuiltBoltExactly(b: Blueprint, threads: seq<Thread>, existing: seq<Record>, t: Tools)
    ensures MakeBolt(b, threads, existing, t).Some?
       <==> Lookup(threads, b.d as real, "Coarse").Some? && HeadAvailable(b, existing, t)
    ensures MakeBolt(b, threads, existing, t).Some? ==>
      BuiltBolt(b, threads, existing, MakeBolt(b, threads, existing, t).value, t)
  {
    var coarse, fine := Lookup(threads, b.d as real, "Coarse"), Lookup(threads, b.d as real, "Fine");
    if coarse.Some? {
      var thread := if b.series.FineIso4017? && fine.Some? then fine.value else coarse.value;
      HeadAvailableExactly(b, thread.minor, existing, t);
      if HeadAvailable(b, existing, t) { BuiltBoltSays(b, thread, fine, coarse.value, existing, t); }
    }
  }

  // ------------------------------------------------------------- generated nuts

  datatype NutSpec = NutSpec(standard: string, organization: string, family: string, propertyClass: string,
                             heightRatio: real, flange: bool)

  function SpecOfNut(s: Series): NutSpec {
    match s
    case Iso4035 => NutSpec("ISO 4035", "ISO", "Thin nut", "8", 0.5, false)
    case Iso4161 => NutSpec("ISO 4161", "ISO", "Flange nut", "8", 0.9, true)
    case Iso7042 => NutSpec("ISO 7042", "ISO", "All-metal lock nut", "8", 0.9, false)
    case En14399Nut => NutSpec("EN 14399-4", "EN", "Structural nut", "10", 0.9, false)
    case WeldNut => NutSpec("DIN 929", "DIN", "Weld nut", "8", 0.8, false)
    case SquareNut => NutSpec("DIN 557", "DIN", "Square nut", "8", 1.0, false)
    case _ => NutSpec("DIN 1587", "DIN", "Cap nut", "8", 1.6, false)
  }

  const NUT_STANDING := {
    SourceStandard, ValidationStatus, ApprovalStatus, Designation, ThreadName, PropertyClass, VerificationStatus,
    RecordStatus}
  const NUT_THREAD := {NutFamily, StandardOrganization, NominalDiameter, Pitch, CoarseOrFine, ThreadTolerance}
  const NUT_SIZES := {
    Other("height_mm"), WidthAcrossFlats, WidthAcrossCorners, FlangeDiameter, BearingSurface, ProofLoad}
  const NUT_LOCKING := {LockingType, TorqueCategory, LockingPrinciple, Reusable}
  const NUT_LIMITS := {Hardness, MinTemperature, MaxTemperature}

  function NutStanding(b: Blueprint): (fields: Record)
    ensures fields.Keys == NUT_STANDING
  {
    var spec, size := SpecOfNut(b.series), "M" + NatToString(b.d);
    map[
      SourceStandard := Text(spec.standard), ValidationStatus := Text("provisional"), ApprovalStatus := Text("pending"),
      Designation := Text(spec.standard + " " + size), ThreadName := Text(size),
      PropertyClass := Text(spec.propertyClass),
      VerificationStatus := Text("unverified"), RecordStatus := Text("draft")]
  }

  function NutThread(b: Blueprint, coarse: Thread): (fields: Record)
    ensures fields.Keys == NUT_THREAD
  {
    map[
      NutFamily := Text(SpecOfNut(b.series).family), StandardOrganization := Text(SpecOfNut(b.series).organization),
      NominalDiameter := Num(b.d as real), Pitch := Num(coarse.pitch), CoarseOrFine := Text("coarse"),
      ThreadTolerance := Text("6H")]
  }

  function NutSizes(b: Blueprint, coarse: Thread, round: (real, nat) -> real): (fields: Record)
    ensures fields.Keys == NUT_SIZES
  {
    var spec, d := SpecOfNut(b.series), b.d as real;
    var flats := round(1.6 * d + 1.0, 2);
    var flange := round(flats * 1.9, 2);
    map[
      Other("height_mm") := Num(round(spec.heightRatio * d, 2)), WidthAcrossFlats := Num(flats),
      WidthAcrossCorners := Num(round(flats * 1.1547, 2)), FlangeDiameter := if spec.flange then Num(flange) else Null,
      BearingSurface := Num(if spec.flange then flange else flats),
      ProofLoad := Num(round(ProofStress(Text(spec.propertyClass)) * coarse.stressArea, 1))]
  }

  function NutLocking(allMetal: bool): (fields: Record)
    ensures fields.Keys == NUT_LOCKING
  {
    map[
      LockingType := Text(if allMetal then "All-metal (deformed thread)" else "None"),
      TorqueCategory := Text(if allMetal then "High temperature capable" else ""),
      LockingPrinciple := Text(if allMetal then "All-metal (deformed thread) prevailing torque" else ""),
      Reusable := if allMetal then Flag(false) else Null]
  }

  function NutLimits(propertyClass: string): (fields: Record)
    ensures fields.Keys == NUT_LIMITS
  {
    map[
      Hardness := Text(if propertyClass == "8" then "170-302 HV" else "272-353 HV"),
      MinTemperature := Num(-50.0), MaxTemperature := Num(if propertyClass == "8" then 150.0 else 200.0)]
  }

  function BuiltNutFields(b: Blueprint, coarse: Thread, t: Tools): Record {
    NutStanding(b) + NutThread(b, coarse) + NutSizes(b, coarse, t.round) + NutLocking(b.series.Iso7042?)
    + NutLimits(SpecOfNut(b.series).propertyClass)
  }

  function MakeNut(b: Blueprint, threads: seq<Thread>, t: Tools): (r: Option<Record>)
    ensures r.Some? ==> Generated(r.value) && Get(r.value, Id) == Text(IdOf(b))
  {
    var coarse :- Lookup(threads, b.d as real, "Coarse");
    Some(Tagged(b, BuiltNutFields(b, coarse, t), t))
  }

  /** The id, the standard and the family of each series. */
  ghost predicate NutNamed(b: Blueprint, c: Record) {
    match b.series
    case Iso4035 => Named(b, c, NutFamily, "NUT-ISO4035-M", "ISO 4035", "Thin nut")
    case Iso4161 => Named(b, c, NutFamily, "NUT-ISO4161-M", "ISO 4161", "Flange nut")
    case Iso7042 => Named(b, c, NutFamily, "NUT-ISO7042-M", "ISO 7042", "All-metal lock nut")
    case En14399Nut => Named(b, c, NutFamily, "NUT-EN14399-M", "EN 14399-4", "Structural nut")
    case WeldNut => Named(b, c, NutFamily, "NUT-WELD-DIN929-M", "DIN 929", "Weld nut")
    case SquareNut => Named(b, c, NutFamily, "NUT-SQUARE-DIN557-M", "DIN 557", "Square nut")
    case CapNut => Named(b, c, NutFamily, "NUT-CAP-DIN1587-M", "DIN 1587", "Cap nut")
    case _ => true
  }

  lemma NutNamedOf(b: Blueprint, c: Record)
    requires Get(c, Id) == Text(IdOf(b)) && Get(c, SourceStandard) == Text(SpecOfNut(b.series).standard)
    requires Get(c, NutFamily) == Text(SpecOfNut(b.series).family)
    ensures NutNamed(b, c)
  {
  }

  ghost predicate NutStandingIs(b: Blueprint, c: Record) {
    var size := "M" + NatToString(b.d);
    && Get(c, SourceStandard).Text? && Get(c, ThreadName) == Text(size)
    && Get(c, Designation) == Text(Get(c, SourceStandard).text + " " + size)
    && Get(c, PropertyClass) == Text(if b.series == En14399Nut then "10" else "8")
    && Get(c, ValidationStatus) == Text("provisional") && Get(c, ApprovalStatus) == Text("pending")
    && Get(c, VerificationStatus) == Text("unverified") && Get(c, RecordStatus) == Text("draft")
  }

  ghost predicate NutThreadIs(b: Blueprint, coarse: Thread, c: Record) {
    && Get(c, StandardOrganization)
       == Text(if b.series in {Iso4035, Iso4161, Iso7042} then "ISO" else if b.series == En14399Nut then "EN"
               else "DIN")
    && Get(c, NominalDiameter) == Num(b.d as real) && Get(c, Pitch) == Num(coarse.pitch)
    && Get(c, CoarseOrFine) == Text("coarse") && Get(c, ThreadTolerance) == Text("6H")
  }

  /** A thin nut is half as high as wide, a cap nut covers the end of the bolt, a square nut is in between. */
  ghost function HeightPerDiameter(s: Series): real {
    if s == Iso4035 then 0.5 else if s == WeldNut then 0.8 else if s == SquareNut then 1.0
    else if s in {Iso4161, Iso7042, En14399Nut} then 0.9 else 1.6
  }

  /** In proportion to the diameter; only a flange nut has a flange and bears on it. */
  ghost predicate NutSizesAre(b: Blueprint, coarse: Thread, c: Record, t: Tools) {
    var d := b.d as real;
    var flats := t.round(1.6 * d + 1.0, 2);
    && Get(c, Other("height_mm")) == Num(t.round(HeightPerDiameter(b.series) * d, 2))
    && Get(c, WidthAcrossFlats) == Num(flats) && Get(c, WidthAcrossCorners) == Num(t.round(flats * 1.1547, 2))
    && Get(c, FlangeDiameter) == (if b.series == Iso4161 then Num(t.round(flats * 1.9, 2)) else Null)
    && Get(c, BearingSurface) == (if b.series == Iso4161 then Num(t.round(flats * 1.9, 2)) else Num(flats))
    && Get(c, ProofLoad)
       == Num(t.round((if b.series == En14399Nut then 1040.0 else 800.0) * coarse.stressArea, 1))
  }

  /** Only the all-metal nut locks, and it is not used twice. */
  ghost predicate NutLockingIs(b: Blueprint, c: Record) {
    if b.series == Iso7042 then
      && Get(c, LockingType) == Text("All-metal (deformed thread)") && Get(c, Reusable) == Flag(false)
      && Get(c, TorqueCategory) == Text("High temperature capable")
      && Get(c, LockingPrinciple) == Text("All-metal (deformed thread) prevailing torque")
    else
      && Get(c, LockingType) == Text("None") && Get(c, Reusable) == Null
      && Get(c, TorqueCategory) == Get(c, LockingPrinciple) == Text("")
  }

  ghost predicate NutLimitsAre(b: Blueprint, c: Record) {
    && Get(c, MinTemperature) == Num(-50.0)
    && Get(c, MaxTemperature) == Num(if b.series == En14399Nut then 200.0 else 150.0)
    && Get(c, Hardness) == Text(if b.series == En14399Nut then "272-353 HV" else "170-302 HV")
  }

  /** Everything a generated nut says, from its plan and the thread library. */
  ghost predicate BuiltNut(b: Blueprint, threads: seq<Thread>, c: Record, t: Tools) {
    var coarse := Lookup(threads, b.d as real, "Coarse");
    && coarse.Some? && NutNamed(b, c) && NutStandingIs(b, c) && NutThreadIs(b, coarse.value, c)
    && NutSizesAre(b, coarse.value, c, t) && NutLockingIs(b, c) && NutLimitsAre(b, c)
  }

  lemma NutStandingOf(b: Blueprint, c: Record)
    requires Holds(c, NutStanding(b))
    ensures NutStandingIs(b, c) && Get(c, SourceStandard) == Text(SpecOfNut(b.series).standard)
  {
  }

  lemma NutThreadOf(b: Blueprint, coarse: Thread, c: Record)
    requires Holds(c, NutThread(b, coarse))
    ensures NutThreadIs(b, coarse, c) && Get(c, NutFamily) == Text(SpecOfNut(b.series).family)
  {
  }

  lemma NutSizesOf(b: Blueprint, coarse: Thread, c: Record, t: Tools)
    requires Holds(c, NutSizes(b, coarse, t.round))
    ensures NutSizesAre(b, coarse, c, t)
  {
  }

  lemma NutLockingOf(b: Blueprint, c: Record)
    requires Holds(c, NutLocking(b.series.Iso7042?))
    ensures NutLockingIs(b, c)
  {
  }

  lemma NutLimitsOf(b: Blueprint, c: Record)
    requires Holds(c, NutLimits(SpecOfNut(b.series).propertyClass))
    ensures NutLimitsAre(b, c)
  {
  }

  /** Which group of columns a field of a generated nut belongs to. */
  function NutGroup(f: Field): nat {
    match f
    case SourceStandard | ValidationStatus | ApprovalStatus | Designation | ThreadName | PropertyClass => 1
    case VerificationStatus | RecordStatus => 1
    case NutFamily | StandardOrganization | NominalDiameter | Pitch | CoarseOrFine | ThreadTolerance => 2
    case WidthAcrossFlats | WidthAcrossCorners | FlangeDiameter | BearingSurface | ProofLoad | Other(_) => 3
    case LockingType | TorqueCategory | LockingPrinciple | Reusable => 4
    case Hardness | MinTemperature | MaxTemperature => 5
    case _ => 0
  }

  lemma NutNameGroups(f: Field)
    ensures f in NUT_STANDING ==> NutGroup(f) == 1
    ensures f in NUT_THREAD ==> NutGroup(f) == 2
  {
  }

  lemma NutFigureGroups(f: Field)
    ensures f in NUT_SIZES ==> NutGroup(f) == 3
    ensures f in NUT_LOCKING ==> NutGroup(f) == 4
    ensures f in NUT_LIMITS ==> NutGroup(f) == 5
  {
  }

  /** All columns are of one group. */
  ghost predicate OfGroup(columns: Record, group: nat) {
    forall f :: f in columns ==> NutGroup(f) == group
  }

  lemma FiveTagged(b: Blueprint, p: Record, q: Record, r: Record, s: Record, u: Record, t: Tools)
    requires p.Keys == NUT_STANDING && q.Keys == NUT_THREAD && r.Keys == NUT_SIZES && s.Keys == NUT_LOCKING
    requires u.Keys == NUT_LIMITS
    ensures var c := Tagged(b, p + q + r + s + u, t);
      Holds(c, p) && Holds(c, q) && Holds(c, r) && Holds(c, s) && Holds(c, u)
  {
    forall f
      ensures f in p ==> NutGroup(f) == 1
      ensures f in q ==> NutGroup(f) == 2
      ensures f in r ==> NutGroup(f) == 3
      ensures f in s ==> NutGroup(f) == 4
      ensures f in u ==> NutGroup(f) == 5
    {
      NutNameGroups(f);
      NutFigureGroups(f);
    }
    TagsApart(p + q + r + s + u);
    TaggedHolds(b, p + q + r + s + u, t);
    HoldsFive(Tagged(b, p + q + r + s + u, t), p, q, r, s, u);
  }

  lemma TagsApart(columns: Record)
    requires forall f :: f in columns ==> NutGroup(f) > 0
    ensures Version !in columns && Id !in columns && Checksum !in columns
  {
  }

  lemma HoldsFive(c: Record, p: Record, q: Record, r: Record, s: Record, u: Record)
    requires Holds(c, p + q + r + s + u)
    requires OfGroup(p, 1) && OfGroup(q, 2) && OfGroup(r, 3) && OfGroup(s, 4) && OfGroup(u, 5)
    ensures Holds(c, p) && Holds(c, q) && Holds(c, r) && Holds(c, s) && Holds(c, u)
  {
    var all := p + q + r + s + u;
    forall f | f in p ensures Get(c, f) == p[f] { assert f in all && all[f] == p[f]; }
    forall f | f in q ensures Get(c, f) == q[f] { assert f in all && all[f] == q[f]; }
    forall f | f in r ensures Get(c, f) == r[f] { assert f in all && all[f] == r[f]; }
    forall f | f in s ensures Get(c, f) == s[f] { assert f in all && all[f] == s[f]; }
    forall f | f in u ensures Get(c, f) == u[f] { assert f in all && all[f] == u[f]; }
  }

  ghost predicate HoldsNut(b: Blueprint, coarse: Thread, c: Record, t: Tools) {
    && Holds(c, NutStanding(b)) && Holds(c, NutThread(b, coarse)) && Holds(c, NutSizes(b, coarse, t.round))
    && Holds(c, NutLocking(b.series.Iso7042?)) && Holds(c, NutLimits(SpecOfNut(b.series).propertyClass))
  }

  lemma NutSays(b: Blueprint, coarse: Thread, c: Record, t: Tools)
    requires HoldsNut(b, coarse, c, t) && Get(c, Id) == Text(IdOf(b))
    ensures NutNamed(b, c) && NutStandingIs(b, c) && NutThreadIs(b, coarse, c) && NutSizesAre(b, coarse, c, t)
    ensures NutLockingIs(b, c) && NutLimitsAre(b, c)
  {
    NutStandingOf(b, c);
    NutThreadOf(b, coarse, c);
    NutSizesOf(b, coarse, c, t);
    NutLockingOf(b, c);
    NutLimitsOf(b, c);
    NutNamedOf(b, c);
  }

  lemma NutParts(b: Blueprint, coarse: Thread, t: Tools)
    ensures HoldsNut(b, coarse, Tagged(b, BuiltNutFields(b, coarse, t), t), t)
  {
    FiveTagged(b, NutStanding(b), NutThread(b, coarse), NutSizes(b, coarse, t.round), NutLocking(b.series.Iso7042?),
               NutLimits(SpecOfNut(b.series).propertyClass), t);
  }

  lemma MakeNutIs(b: Blueprint, threads: seq<Thread>, t: Tools)
    ensures var coarse := Lookup(threads, b.d as real, "Coarse");
      MakeNut(b, threads, t)
      == if coarse.None? then None else Some(Tagged(b, BuiltNutFields(b, coarse.value, t), t))
  {
  }

  lemma HoldingNutSays(b: Blueprint, coarse: Thread, threads: seq<Thread>, c: Record, t: Tools)
    requires Lookup(threads, b.d as real, "Coarse") == Some(coarse) && HoldsNut(b, coarse, c, t)
    requires Get(c, Id) == Text(IdOf(b))
    ensures BuiltNut(b, threads, c, t)
  {
    NutSays(b, coarse, c, t);
  }

  /** A nut is built exactly when its thread is to be had, and then says exactly that. */
  lemma BuiltNutExactly(b: Blueprint, threads: seq<Thread>, t: Tools)
    ensures MakeNut(b, threads, t).Some? <==> Lookup(threads, b.d as real, "Coarse").Some?
    ensures MakeNut(b, threads, t).Some? ==> BuiltNut(b, threads, MakeNut(b, threads, t).value, t)
  {
    var coarse := Lookup(threads, b.d as real, "Coarse");
    MakeNutIs(b, threads, t);
    if coarse.Some? {
      NutParts(b, coarse.value, t);
      HoldingNutSays(b, coarse.value, threads, MakeNut(b, threads, t).value, t);
    }
  }
}
