/**
 The run of the bolt and nut generator (tools/generate_faz2_4_1b_bolt_nut_records.py): both files
 filled in, rebuilt and saved, and what that leaves in them.
 */
module Regeneration {
  import opened GeneratedRecords
  import opened LegacyBackfill
  import opened LibraryRecords
  import opened Options
  import opened Sorting
  import opened Text

  // -------------------------------------------------------------------- the run

  const BOLT_FAMILIES := " with ISO 4014/4162, DIN 931/933/912, EN 14399-3, "
    + "and stud/set-screw/shoulder/reduced-shank/fine-thread families."
  const NUT_FAMILIES := " with ISO 4035/4161/7042, EN 14399-4, DIN 929/557/1587 families."
  const BOLT_SUFFIX := " Extended in " + MARK + BOLT_FAMILIES
  const NUT_SUFFIX := " Extended in " + MARK + NUT_FAMILIES

  function BoltMaker(threads: seq<Thread>, existing: seq<Record>, t: Tools): Blueprint -> Option<Record> {
    b => MakeBolt(b, threads, existing, t)
  }

  function NutMaker(threads: seq<Thread>, t: Tools): Blueprint -> Option<Record> {
    b => MakeNut(b, threads, t)
  }

  function BuildBolts(threads: seq<Thread>, existing: seq<Record>, t: Tools): Option<seq<Record>> {
    if TemplatesReadable(existing) then MapAll(BoltCatalogue(threads), BoltMaker(threads, existing, t)) else None
  }

  function BuildNuts(threads: seq<Thread>, t: Tools): Option<seq<Record>> {
    MapAll(NutCatalogue(), NutMaker(threads, t))
  }

  function BoltBuilder(threads: seq<Thread>, t: Tools): seq<Record> -> Option<seq<Record>> {
    existing => BuildBolts(threads, existing, t)
  }

  function NutBuilder(threads: seq<Thread>, t: Tools): seq<Record> -> Option<seq<Record>> {
    existing => BuildNuts(threads, t)
  }

  function BoltStage(p: Payload, threads: seq<Thread>, t: Tools): Option<Payload> {
    Stage(p, Filler(BOLT_STANDARDS, BoltUpdater(t), t.sha), BoltBuilder(threads, t), BOLT_SUFFIX, None)
  }

  function NutStage(p: Payload, threads: seq<Thread>, t: Tools): Option<Payload> {
    Stage(p, Filler(NUT_STANDARDS, NutUpdater(threads, t), t.sha), NutBuilder(threads, t), NUT_SUFFIX, Some(""))
  }

  datatype Files = Files(bolts: Payload, nuts: Payload)

  /** `main`: bolts are saved before the nuts are touched; the flag says that nothing was raised. */
  function RunOnce(files: Files, threads: seq<Thread>, t: Tools): (Files, bool) {
    match BoltStage(files.bolts, threads, t)
    case None => (files, false)
    case Some(bolts) =>
      match NutStage(files.nuts, threads, t)
      case None => (Files(bolts, files.nuts), false)
      case Some(nuts) => (Files(bolts, nuts), true)
  }

  lemma MadeByTags<T>(plans: seq<T>, make: T -> Option<Record>)
    requires forall b :: make(b).Some? ==> Generated(make(b).value)
    requires MapAll(plans, make).Some?
    ensures forall r :: r in MapAll(plans, make).value ==> Generated(r)
  {
    MapAllExactly(plans, make);
    forall r | r in MapAll(plans, make).value ensures Generated(r) {
      var i :| 0 <= i < |plans| && MapAll(plans, make).value[i] == r;
      assert make(plans[i]).Some?;
    }
  }

  lemma BoltsAreTagged(threads: seq<Thread>, t: Tools)
    ensures Tags(BoltBuilder(threads, t))
  {
    forall s, r | BoltBuilder(threads, t)(s).Some? && r in BoltBuilder(threads, t)(s).value ensures Generated(r) {
      MadeByTags(BoltCatalogue(threads), BoltMaker(threads, s, t));
    }
  }

  lemma NutsAreTagged(threads: seq<Thread>, t: Tools)
    ensures Tags(NutBuilder(threads, t))
  {
    forall s, r | NutBuilder(threads, t)(s).Some? && r in NutBuilder(threads, t)(s).value ensures Generated(r) {
      MadeByTags(NutCatalogue(), NutMaker(threads, t));
    }
  }

  lemma Marked(before: string, mark: string, after: string)
    ensures Contains(before + mark + after, mark)
  {
    assert FoundAt(before + mark + after, mark, |before|);
  }

  lemma BoltStageIdempotent(p: Payload, threads: seq<Thread>, t: Tools)
    ensures BoltStage(p, threads, t).Some? ==>
      BoltStage(BoltStage(p, threads, t).value, threads, t) == BoltStage(p, threads, t)
  {
    if BoltStage(p, threads, t).None? { return; }
    BoltReadsApart(t);
    FillLegacySettles(BOLT_STANDARDS, BoltUpdater(t), t.sha, BoltWritten);
    BoltsAreTagged(threads, t);
    Marked(" Extended in ", MARK, BOLT_FAMILIES);
    StageIdempotent(p, Filler(BOLT_STANDARDS, BoltUpdater(t), t.sha), BoltBuilder(threads, t), BOLT_SUFFIX, None);
  }

  lemma NutStageIdempotent(p: Payload, threads: seq<Thread>, t: Tools)
    ensures NutStage(p, threads, t).Some? ==>
      NutStage(NutStage(p, threads, t).value, threads, t) == NutStage(p, threads, t)
  {
    if NutStage(p, threads, t).None? { return; }
    NutReadsApart(threads, t);
    FillLegacySettles(NUT_STANDARDS, NutUpdater(threads, t), t.sha, NutWritten);
    NutsAreTagged(threads, t);
    Marked(" Extended in ", MARK, NUT_FAMILIES);
    StageIdempotent(p, Filler(NUT_STANDARDS, NutUpdater(threads, t), t.sha), NutBuilder(threads, t),
                    NUT_SUFFIX, Some(""));
  }

  /** Running the generator again changes neither file, also when the first run stopped half way. */
  lemma RegenerationIdempotent(files: Files, threads: seq<Thread>, t: Tools)
    ensures RunOnce(RunOnce(files, threads, t).0, threads, t) == RunOnce(files, threads, t)
  {
    if BoltStage(files.bolts, threads, t).Some? {
      BoltStageIdempotent(files.bolts, threads, t);
      if NutStage(files.nuts, threads, t).Some? { NutStageIdempotent(files.nuts, threads, t); }
    }
  }

  /** A saved file: the records kept, then one record for each plan. */
  ghost predicate FileOf(records: seq<Record>, kept: seq<Record>, plans: seq<Blueprint>,
                         make: Blueprint -> Option<Record>) {
    && kept <= records && |records| == |kept| + |plans|
    && forall i :: 0 <= i < |plans| ==> make(plans[i]) == Some(records[|kept| + i])
  }

  lemma MadeFile(kept: seq<Record>, added: seq<Record>, plans: seq<Blueprint>, make: Blueprint -> Option<Record>)
    requires MapAll(plans, make) == Some(added)
    ensures FileOf(kept + added, kept, plans, make)
  {
    MapAllExactly(plans, make);
  }

  lemma BoltSettles(t: Tools)
    ensures Settles(Filler(BOLT_STANDARDS, BoltUpdater(t), t.sha))
  {
    BoltReadsApart(t);
    FillLegacySettles(BOLT_STANDARDS, BoltUpdater(t), t.sha, BoltWritten);
  }

  lemma NutSettles(threads: seq<Thread>, t: Tools)
    ensures Settles(Filler(NUT_STANDARDS, NutUpdater(threads, t), t.sha))
  {
    NutReadsApart(threads, t);
    FillLegacySettles(NUT_STANDARDS, NutUpdater(threads, t), t.sha, NutWritten);
  }

  /** A bolt as a run leaves it: filled in if it is a legacy record, every other column as it was. */
  ghost predicate BoltKept(r: Record, c: Record, t: Tools) {
    && (!LegacyBolt(r) ==> c == r)
    && (LegacyBolt(r) ==>
          && Get(r, DiameterMm).Num? && PropertyClass in r && Agree(r, c, BoltWritten)
          && BoltShape(r, c, t) && StrengthColumns(c, Get(r, PropertyClass)) && BoltUse(r, c))
  }

  ghost predicate NutKept(r: Record, c: Record, threads: seq<Thread>, t: Tools) {
    && (!LegacyNut(r) ==> c == r)
    && (LegacyNut(r) ==>
          && NutReadable(r, threads, t) && Agree(r, c, NutWritten)
          && NutColumns(r, ParseThread(r[ThreadName].text, threads, t.number).value, threads, c, t))
  }

  ghost predicate PlannedBolt(b: Blueprint, threads: seq<Thread>, existing: seq<Record>, c: Record, t: Tools) {
    Get(c, Id) == Text(IdOf(b)) && BuiltBolt(b, threads, existing, c, t)
  }

  ghost predicate PlannedNut(b: Blueprint, threads: seq<Thread>, c: Record, t: Tools) {
    Get(c, Id) == Text(IdOf(b)) && BuiltNut(b, threads, c, t)
  }

  lemma FillerSaysBolt(r: Record, c: Record, t: Tools)
    requires Filler(BOLT_STANDARDS, BoltUpdater(t), t.sha)(r) == Some(c)
    ensures BoltKept(r, c, t)
  {
    assert FillBolt(r, t) == Some(c);
    BoltFilledExactly(r, t);
    LegacyFieldsKept(r, [], t);
  }

  lemma FillerSaysNut(r: Record, c: Record, threads: seq<Thread>, t: Tools)
    requires Filler(NUT_STANDARDS, NutUpdater(threads, t), t.sha)(r) == Some(c)
    ensures NutKept(r, c, threads, t)
  {
    assert FillNut(r, threads, t) == Some(c);
    NutFilledExactly(r, threads, t);
    LegacyFieldsKept(r, threads, t);
  }

  lemma MakerSaysBolt(b: Blueprint, threads: seq<Thread>, existing: seq<Record>, c: Record, t: Tools)
    requires BoltMaker(threads, existing, t)(b) == Some(c)
    ensures PlannedBolt(b, threads, existing, c, t)
  {
    assert MakeBolt(b, threads, existing, t) == Some(c);
    BuiltBoltExactly(b, threads, existing, t);
  }

  lemma MakerSaysNut(b: Blueprint, threads: seq<Thread>, c: Record, t: Tools)
    requires NutMaker(threads, t)(b) == Some(c)
    ensures PlannedNut(b, threads, c, t)
  {
    assert MakeNut(b, threads, t) == Some(c);
    BuiltNutExactly(b, threads, t);
  }

  /** What holds of each record filled in, and of each record made, holds throughout the file. */
  lemma Throughout(own: seq<Record>, kept: seq<Record>, records: seq<Record>, plans: seq<Blueprint>,
                   fill: Record -> Option<Record>, make: Blueprint -> Option<Record>,
                   filled: (Record, Record) -> bool, planned: (Blueprint, Record) -> bool)
    requires FilledInOrder(own, kept, fill) && FileOf(records, kept, plans, make)
    requires forall r, c :: fill(r) == Some(c) ==> filled(r, c)
    requires forall b, c :: make(b) == Some(c) ==> planned(b, c)
    ensures File(own, kept, records, plans, filled, planned)
  {
  }

  /** The kept records stand for the old ones, and the rest for the plans, each in order. */
  ghost predicate File(own: seq<Record>, kept: seq<Record>, records: seq<Record>, plans: seq<Blueprint>,
                       filled: (Record, Record) -> bool, planned: (Blueprint, Record) -> bool) {
    && kept <= records && |records| == |kept| + |plans| && |kept| == |own|
    && (forall i :: 0 <= i < |own| ==> filled(own[i], kept[i]))
    && (forall i :: 0 <= i < |plans| ==> planned(plans[i], records[|kept| + i]))
  }

  lemma BoltBuilderMakes(threads: seq<Thread>, existing: seq<Record>, t: Tools)
    ensures BoltBuilder(threads, t)(existing).Some? ==>
      MapAll(BoltCatalogue(threads), BoltMaker(threads, existing, t)) == BoltBuilder(threads, t)(existing)
  {
  }

  lemma NutBuilderMakes(threads: seq<Thread>, existing: seq<Record>, t: Tools)
    ensures NutBuilder(threads, t)(existing) == MapAll(NutCatalogue(), NutMaker(threads, t))
  {
  }

  lemma BoltStageSaves(p: Payload, threads: seq<Thread>, t: Tools) returns (kept: seq<Record>, added: seq<Record>)
    requires BoltStage(p, threads, t).Some?
    ensures BoltStage(p, threads, t).value.records == kept + added && kept == StripGenerated(kept + added)
    ensures MapAll(BoltCatalogue(threads), BoltMaker(threads, kept, t)) == Some(added)
    ensures FilledInOrder(StripGenerated(p.records), kept, Filler(BOLT_STANDARDS, BoltUpdater(t), t.sha))
  {
    BoltSettles(t);
    BoltsAreTagged(threads, t);
    kept, added := StageSaves(p, Filler(BOLT_STANDARDS, BoltUpdater(t), t.sha), BoltBuilder(threads, t),
                              BOLT_SUFFIX, None);
    BoltBuilderMakes(threads, kept, t);
  }

  lemma NutStageSaves(p: Payload, threads: seq<Thread>, t: Tools) returns (kept: seq<Record>, added: seq<Record>)
    requires NutStage(p, threads, t).Some?
    ensures NutStage(p, threads, t).value.records == kept + added && kept == StripGenerated(kept + added)
    ensures MapAll(NutCatalogue(), NutMaker(threads, t)) == Some(added)
    ensures FilledInOrder(StripGenerated(p.records), kept, Filler(NUT_STANDARDS, NutUpdater(threads, t), t.sha))
  {
    NutSettles(threads, t);
    NutsAreTagged(threads, t);
    kept, added := StageSaves(p, Filler(NUT_STANDARDS, NutUpdater(threads, t), t.sha), NutBuilder(threads, t),
                              NUT_SUFFIX, Some(""));
    NutBuilderMakes(threads, kept, t);
  }

  /** What a run leaves in the bolt file: the original bolts, legacy ones filled in, then every planned bolt. */
  lemma BoltFileExactly(p: Payload, threads: seq<Thread>, t: Tools)
    ensures BoltStage(p, threads, t).Some? ==>
      var records := BoltStage(p, threads, t).value.records;
      var kept := StripGenerated(records);
      File(StripGenerated(p.records), kept, records, BoltCatalogue(threads),
           (r, c) => BoltKept(r, c, t), (b, c) => PlannedBolt(b, threads, kept, c, t))
  {
    if BoltStage(p, threads, t).None? { return; }
    var kept, added := BoltStageSaves(p, threads, t);
    MadeFile(kept, added, BoltCatalogue(threads), BoltMaker(threads, kept, t));
    BoltsThroughout(StripGenerated(p.records), kept, kept + added, BoltCatalogue(threads), threads, t);
  }

  lemma BoltsThroughout(own: seq<Record>, kept: seq<Record>, records: seq<Record>, plans: seq<Blueprint>,
                        threads: seq<Thread>, t: Tools)
    requires FilledInOrder(own, kept, Filler(BOLT_STANDARDS, BoltUpdater(t), t.sha))
    requires FileOf(records, kept, plans, BoltMaker(threads, kept, t))
    ensures File(own, kept, records, plans, (r, c) => BoltKept(r, c, t), (b, c) => PlannedBolt(b, threads, kept, c, t))
  {
    var fill, make := Filler(BOLT_STANDARDS, BoltUpdater(t), t.sha), BoltMaker(threads, kept, t);
    forall r, c | fill(r) == Some(c) ensures BoltKept(r, c, t) { FillerSaysBolt(r, c, t); }
    forall b, c | make(b) == Some(c) ensures PlannedBolt(b, threads, kept, c, t) {
      MakerSaysBolt(b, threads, kept, c, t);
    }
    Throughout(own, kept, records, plans, fill, make,
               (r, c) => BoltKept(r, c, t), (b, c) => PlannedBolt(b, threads, kept, c, t));
  }

  /** What a run leaves in the nut file, likewise. */
  lemma NutFileExactly(p: Payload, threads: seq<Thread>, t: Tools)
    ensures NutStage(p, threads, t).Some? ==>
      var records := NutStage(p, threads, t).value.records;
      File(StripGenerated(p.records), StripGenerated(records), records, NutCatalogue(),
           (r, c) => NutKept(r, c, threads, t), (b, c) => PlannedNut(b, threads, c, t))
  {
    if NutStage(p, threads, t).None? { return; }
    var kept, added := NutStageSaves(p, threads, t);
    MadeFile(kept, added, NutCatalogue(), NutMaker(threads, t));
    NutsThroughout(StripGenerated(p.records), kept, kept + added, NutCatalogue(), threads, t);
  }

  lemma NutsThroughout(own: seq<Record>, kept: seq<Record>, records: seq<Record>, plans: seq<Blueprint>,
                       threads: seq<Thread>, t: Tools)
    requires FilledInOrder(own, kept, Filler(NUT_STANDARDS, NutUpdater(threads, t), t.sha))
    requires FileOf(records, kept, plans, NutMaker(threads, t))
    ensures File(own, kept, records, plans, (r, c) => NutKept(r, c, threads, t), (b, c) => PlannedNut(b, threads, c, t))
  {
    var fill, make := Filler(NUT_STANDARDS, NutUpdater(threads, t), t.sha), NutMaker(threads, t);
    forall r, c | fill(r) == Some(c) ensures NutKept(r, c, threads, t) { FillerSaysNut(r, c, threads, t); }
    forall b, c | make(b) == Some(c) ensures PlannedNut(b, threads, c, t) { MakerSaysNut(b, threads, c, t); }
    Throughout(own, kept, records, plans, fill, make,
               (r, c) => NutKept(r, c, threads, t), (b, c) => PlannedNut(b, threads, c, t));
  }

  lemma EachSome(plans: seq<Blueprint>, make: Blueprint -> Option<Record>)
    ensures MapAll(plans, make).Some? <==> forall b :: b in plans ==> make(b).Some?
  {
    MapAllExactly(plans, make);
    if MapAll(plans, make).Some? {
      forall b | b in plans ensures make(b).Some? {
        var i :| 0 <= i < |plans| && plans[i] == b;
        assert make(plans[i]).Some?;
      }
    }
  }

  /** The templates of the two standards are looked up by diameter, so each of their records needs one. */
  ghost predicate TemplatesHaveDiameters(existing: seq<Record>) {
    forall r :: r in existing && Get(r, SourceStandard).Text? && Get(r, SourceStandard).text in {"ISO 4017", "ISO 4762"}
      ==> DiameterMm in r
  }

  ghost predicate BoltsFeasible(plans: seq<Blueprint>, threads: seq<Thread>, existing: seq<Record>, t: Tools) {
    forall b :: b in plans ==> Lookup(threads, b.d as real, "Coarse").Some? && HeadAvailable(b, existing, t)
  }

  lemma BoltsMadeExactly(plans: seq<Blueprint>, threads: seq<Thread>, existing: seq<Record>, t: Tools)
    ensures MapAll(plans, BoltMaker(threads, existing, t)).Some? <==> BoltsFeasible(plans, threads, existing, t)
  {
    var make := BoltMaker(threads, existing, t);
    EachSome(plans, make);
    forall b ensures make(b).Some? <==> Lookup(threads, b.d as real, "Coarse").Some? && HeadAvailable(b, existing, t) {
      assert make(b) == MakeBolt(b, threads, existing, t);
      BuiltBoltExactly(b, threads, existing, t);
    }
  }

  lemma ReadableExactly(existing: seq<Record>)
    ensures TemplatesReadable(existing) <==> TemplatesHaveDiameters(existing)
  {
  }

  /** When the bolts can be built: the templates are readable, and each plan has its thread and its head. */
  lemma BoltsBuiltExactly(threads: seq<Thread>, existing: seq<Record>, t: Tools)
    ensures BuildBolts(threads, existing, t).Some?
       <==> TemplatesHaveDiameters(existing) && BoltsFeasible(BoltCatalogue(threads), threads, existing, t)
  {
    ReadableExactly(existing);
    BoltsMadeExactly(BoltCatalogue(threads), threads, existing, t);
  }

  /** The nuts need only their threads. */
  lemma NutsBuiltExactly(threads: seq<Thread>, t: Tools)
    ensures BuildNuts(threads, t).Some?
       <==> forall b :: b in NutCatalogue() ==> Lookup(threads, b.d as real, "Coarse").Some?
  {
    var plans, make := NutCatalogue(), NutMaker(threads, t);
    EachSome(plans, make);
    forall b ensures make(b).Some? <==> Lookup(threads, b.d as real, "Coarse").Some? {
      BuiltNutExactly(b, threads, t);
    }
  }

  /** A saved file has the new version, and the note is appended to its description unless it is there. */
  ghost predicate HeaderIs(saved: Payload, was: string, note: string) {
    saved.version == "2.4.1B" && saved.description == Some(if Contains(was, MARK) then was else was + note)
  }

  lemma StageHeader(p: Payload, fill: Record -> Option<Record>, build: seq<Record> -> Option<seq<Record>>,
                    suffix: string, fallback: Option<string>)
    requires Stage(p, fill, build, suffix, fallback).Some?
    ensures p.description.Some? || fallback.Some?
    ensures HeaderIs(Stage(p, fill, build, suffix, fallback).value,
                     if p.description.Some? then p.description.value else fallback.value, suffix)
  {
  }

  /** The bolt file must have a description, the nut file is given one, and each gets its own note. */
  lemma SavedHeaders(p: Payload, threads: seq<Thread>, t: Tools)
    ensures BoltStage(p, threads, t).Some? ==>
      p.description.Some? && HeaderIs(BoltStage(p, threads, t).value, p.description.value, BOLT_SUFFIX)
    ensures NutStage(p, threads, t).Some? ==>
      HeaderIs(NutStage(p, threads, t).value, if p.description.Some? then p.description.value else "", NUT_SUFFIX)
  {
    if BoltStage(p, threads, t).Some? {
      StageHeader(p, Filler(BOLT_STANDARDS, BoltUpdater(t), t.sha), BoltBuilder(threads, t), BOLT_SUFFIX, None);
    }
    if NutStage(p, threads, t).Some? {
      StageHeader(p, Filler(NUT_STANDARDS, NutUpdater(threads, t), t.sha), NutBuilder(threads, t),
                  NUT_SUFFIX, Some(""));
    }
  }

  lemma MadeFromDistinct(plans: seq<Blueprint>, make: Blueprint -> Option<Record>)
    requires Distinct(plans) && MapAll(plans, make).Some?
    requires forall b :: make(b).Some? ==> Get(make(b).value, Id) == Text(IdOf(b))
    ensures DistinctIds(MapAll(plans, make).value)
  {
    MapAllExactly(plans, make);
    var made := MapAll(plans, make).value;
    forall i, j | 0 <= i < j < |made| ensures Get(made[i], Id) != Get(made[j], Id) {
      assert make(plans[i]) == Some(made[i]) && make(plans[j]) == Some(made[j]);
      if IdOf(plans[i]) == IdOf(plans[j]) { IdInjective(plans[i], plans[j]); }
    }
  }

  /** The assertion that generated ids are distinct can never fail. */
  lemma GeneratedBoltIdsDistinct(threads: seq<Thread>, existing: seq<Record>, t: Tools)
    ensures BuildBolts(threads, existing, t).Some? ==> DistinctIds(BuildBolts(threads, existing, t).value)
  {
    if BuildBolts(threads, existing, t).None? { return; }
    BoltCatalogueDistinct(threads);
    MadeFromDistinct(BoltCatalogue(threads), BoltMaker(threads, existing, t));
  }

  lemma GeneratedNutIdsDistinct(threads: seq<Thread>, t: Tools)
    ensures BuildNuts(threads, t).Some? ==> DistinctIds(BuildNuts(threads, t).value)
  {
    if BuildNuts(threads, t).None? { return; }
    NutCatalogueDistinct();
    MadeFromDistinct(NutCatalogue(), NutMaker(threads, t));
  }

  lemma {:induction false} TemplateOfConcat(xs: seq<Record>, ys: seq<Record>, standard: string, d: nat)
    ensures TemplateOf(xs + ys, standard, d)
         == if TemplateOf(ys, standard, d).Some? then TemplateOf(ys, standard, d) else TemplateOf(xs, standard, d)
    decreases |ys|
  {
    if ys == [] {
      assert xs + ys == xs;
    } else {
      assert (xs + ys)[..|xs + ys| - 1] == xs + ys[..|ys| - 1];
      TemplateOfConcat(xs, ys[..|ys| - 1], standard, d);
    }
  }

  lemma {:induction false} TemplateOfMember(records: seq<Record>, standard: string, d: nat)
    ensures TemplateOf(records, standard, d).Some? ==>
              var r := TemplateOf(records, standard, d).value;
              r in records && IsTemplate(r, standard) && Get(r, DiameterMm) == Num(d as real)
    ensures TemplateOf(records, standard, d).None? ==>
              forall r :: r in records ==> !(IsTemplate(r, standard) && Get(r, DiameterMm) == Num(d as real))
  {
    if records != [] { TemplateOfMember(records[..|records| - 1], standard, d); }
  }

  /** At every niche diameter with a fine thread a fine-thread ISO 4017 bolt is planned. */
  lemma FineBoltPlanned(threads: seq<Thread>, d: nat)
    requires d in NICHE && Lookup(threads, d as real, "Fine").Some?
    ensures Blueprint(FineIso4017, d) in BoltCatalogue(threads)
  {
    var offered := NicheBolts(threads)(d);
    assert offered[4] == FineIso4017;
    LayOffers(NICHE, NicheBolts(threads), Blueprint(FineIso4017, d));
  }

  /** A record that looks like a template and comes later would be taken for it. */
  lemma LaterRecordShadows(kept: seq<Record>, added: seq<Record>, fine: Record, d: nat)
    requires forall r :: r in kept ==> !Generated(r)
    requires forall r :: r in added ==> Generated(r)
    requires fine in added && IsTemplate(fine, "ISO 4017") && Get(fine, DiameterMm) == Num(d as real)
    ensures var stripped := TemplateOf(StripGenerated(kept + added), "ISO 4017", d);
            stripped.Some? ==> !Generated(stripped.value)
    ensures var unstripped := TemplateOf(kept + added, "ISO 4017", d);
            unstripped.Some? && Generated(unstripped.value)
  {
    TemplateOfMember(StripGenerated(kept + added), "ISO 4017", d);
    forall r ensures r in StripGenerated(kept + added) ==> !Generated(r) { StripMember(kept + added, r); }
    TemplateOfConcat(kept, added, "ISO 4017", d);
    TemplateOfMember(added, "ISO 4017", d);
  }

  /**
   Stripping has to come before the templates are read. After it no template is a generated
   record; without it the fine-thread ISO 4017 bolt the generator itself made for a diameter would
   replace the original template of that diameter on the next run.
   */
  lemma StrippingProtectsTemplates(threads: seq<Thread>, kept: seq<Record>, added: seq<Record>, t: Tools, d: nat)
    requires forall r :: r in kept ==> !Generated(r)
    requires d in NICHE && Lookup(threads, d as real, "Fine").Some?
    ensures BuildBolts(threads, kept, t) == Some(added) ==>
      var stripped := TemplateOf(StripGenerated(kept + added), "ISO 4017", d);
      var unstripped := TemplateOf(kept + added, "ISO 4017", d);
      && (stripped.Some? ==> !Generated(stripped.value))
      && unstripped.Some? && Generated(unstripped.value)
  {
    if BuildBolts(threads, kept, t) != Some(added) { return; }
    FineBoltPlanned(threads, d);
    BoltMakerMakes(threads, kept, t);
    BuiltBoltShadows(BoltCatalogue(threads), BoltMaker(threads, kept, t), kept, d);
  }

  /** Every bolt made is tagged and is looked up by the standard and the diameter of its plan. */
  ghost predicate MakesBolts(make: Blueprint -> Option<Record>) {
    forall b :: make(b).Some? ==>
      && Generated(make(b).value)
      && IsTemplate(make(b).value, BoltSpec(b.series).standard) && Get(make(b).value, DiameterMm) == Num(b.d as real)
  }

  lemma BoltMakerMakes(threads: seq<Thread>, existing: seq<Record>, t: Tools)
    ensures MakesBolts(BoltMaker(threads, existing, t))
  {
    forall b | BoltMaker(threads, existing, t)(b).Some?
      ensures Generated(BoltMaker(threads, existing, t)(b).value)
      ensures IsTemplate(BoltMaker(threads, existing, t)(b).value, BoltSpec(b.series).standard)
      ensures Get(BoltMaker(threads, existing, t)(b).value, DiameterMm) == Num(b.d as real)
    {
      assert BoltMaker(threads, existing, t)(b) == MakeBolt(b, threads, existing, t);
    }
  }

  lemma BuiltBoltShadows(plans: seq<Blueprint>, make: Blueprint -> Option<Record>, kept: seq<Record>, d: nat)
    requires forall r :: r in kept ==> !Generated(r)
    requires MakesBolts(make) && MapAll(plans, make).Some? && Blueprint(FineIso4017, d) in plans
    ensures var all := kept + MapAll(plans, make).value;
      var stripped, unstripped := TemplateOf(StripGenerated(all), "ISO 4017", d), TemplateOf(all, "ISO 4017", d);
      && (stripped.Some? ==> !Generated(stripped.value))
      && unstripped.Some? && Generated(unstripped.value)
  {
    var fine := BuiltRecord(plans, make, Blueprint(FineIso4017, d));
    MadeByTags(plans, make);
    LaterRecordShadows(kept, MapAll(plans, make).value, fine, d);
  }

  lemma BuiltRecord(plans: seq<Blueprint>, make: Blueprint -> Option<Record>, b: Blueprint) returns (r: Record)
    requires b in plans && MapAll(plans, make).Some?
    ensures make(b) == Some(r) && r in MapAll(plans, make).value
  {
    MapAllExactly(plans, make);
    var i :| 0 <= i < |plans| && plans[i] == b;
    r := MapAll(plans, make).value[i];
  }

  /** A run keeps every field of a legacy record but those it fills in, and drops none of them. */
  lemma LegacyFieldsKept(r: Record, threads: seq<Thread>, t: Tools)
    ensures FillBolt(r, t).Some? ==> Agree(r, FillBolt(r, t).value, BoltWritten)
    ensures FillNut(r, threads, t).Some? ==> Agree(r, FillNut(r, threads, t).value, NutWritten)
  {
    BoltReadsApart(t);
    NutReadsApart(threads, t);
    if FillBolt(r, t).Some? { FillLegacyTwice(r, BOLT_STANDARDS, BoltUpdater(t), t.sha, BoltWritten); }
    if FillNut(r, threads, t).Some? { FillLegacyTwice(r, NUT_STANDARDS, NutUpdater(threads, t), t.sha, NutWritten); }
  }

  // -------------------------------------------------------------------- methods

  method BoltFile(p: Payload, threads: seq<Thread>, t: Tools) returns (r: Option<Payload>)
    ensures r == BoltStage(p, threads, t)
  {
    var filled := BackfillLoaded(p.records, BOLT_STANDARDS, BoltUpdater(t), t.sha);
    if filled.None? { return None; }
    var kept := StripGenerated(filled.value);
    if !TemplatesReadable(kept) { return None; }
    var added := Generate(BoltCatalogue(threads), BoltMaker(threads, kept, t));
    if added.None? { return None; }
    return Finish(p, kept, added.value, BOLT_SUFFIX, None);
  }

  method NutFile(p: Payload, threads: seq<Thread>, t: Tools) returns (r: Option<Payload>)
    ensures r == NutStage(p, threads, t)
  {
    var filled := BackfillLoaded(p.records, NUT_STANDARDS, NutUpdater(threads, t), t.sha);
    if filled.None? { return None; }
    var kept := StripGenerated(filled.value);
    var added := Generate(NutCatalogue(), NutMaker(threads, t));
    if added.None? { return None; }
    return Finish(p, kept, added.value, NUT_SUFFIX, Some(""));
  }

  class Library {
    var bolts: Payload
    var nuts: Payload

    constructor (bolts: Payload, nuts: Payload)
      ensures this.bolts == bolts && this.nuts == nuts
    {
      this.bolts, this.nuts := bolts, nuts;
    }

    method Regenerate(threads: seq<Thread>, t: Tools) returns (ok: bool)
      modifies this
      ensures (Files(bolts, nuts), ok) == RunOnce(old(Files(bolts, nuts)), threads, t)
      ensures BoltStage(old(bolts), threads, t).None? ==> !ok && bolts == old(bolts) && nuts == old(nuts)
      ensures BoltStage(old(bolts), threads, t).Some? ==>
        var saved := NutStage(old(nuts), threads, t);
        && bolts == BoltStage(old(bolts), threads, t).value && (ok <==> saved.Some?)
        && nuts == if saved.Some? then saved.value else old(nuts)
    {
      var newBolts := BoltFile(bolts, threads, t);
      if newBolts.None? { return false; }
      bolts := newBolts.value;
      var newNuts := NutFile(nuts, threads, t);
      if newNuts.None? { return false; }
      nuts := newNuts.value;
      return true;
    }
  }
}
