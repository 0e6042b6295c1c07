/**
 Bolt and nut records as the data files hold them: fields by name, any of which may be missing.
 (tools/generate_faz2_4_1b_bolt_nut_records.py)
 */
module LibraryRecords {
  import opened Options
  import opened Sorting
  import opened Text = Text

  datatype Field =
    | Id | Version | Checksum | SourceStandard | ValidationStatus | ApprovalStatus | PropertyClass
    | DiameterMm | Designation | ThreadName | PitchCoarse | PitchFine | StressArea | MinorDiameter | PitchDiameter
    | HeadAcrossFlats | HeadAcrossCorners | HeadHeight | SocketSize | WasherFaceDiameter
    | BearingDiameter | RecommendedHole | ClearanceHole | TapDrill | ThreadEngagement | Weight
    | BoltFamily | NutFamily | StandardOrganization | NominalDiameter | Pitch | CoarseOrFine
    | ThreadTolerance | NominalLength | ThreadedLength | DriveType | WrenchSize | UnderHeadBearing
    | ReducedShank | HeatTreatment | Coating | Lubrication | TensileStrength | ProofStrength
    | YieldStrength | Elongation | Hardness | MinTemperature | MaxTemperature | ToleranceReference
    | VerificationStatus | RecordStatus
    | WidthAcrossFlats | WidthAcrossCorners | FlangeDiameter | BearingSurface | ProofLoad
    | TorqueCategory | LockingType | LockingPrinciple | Reusable | MatingBolt
    | Other(name: string)

  datatype Value =
    | Null | Num(num: real) | Text(text: string) | Flag(flag: bool)
    | Items(items: seq<string>) | Nested(json: string)

  type Record = map<Field, Value>

  /** `record.get(field)`. */
  function Get(r: Record, f: Field): Value {
    if f in r then r[f] else Null
  }

  /** `record[field]`, where a missing key raises. */
  function At(r: Record, f: Field): Option<Value> {
    if f in r then Some(r[f]) else None
  }

  function NumAt(r: Record, f: Field): Option<real> {
    if f in r && r[f].Num? then Some(r[f].num) else None
  }

  function TextAt(r: Record, f: Field): Option<string> {
    if f in r && r[f].Text? then Some(r[f].text) else None
  }

  const MARK := "Faz 2.4.1B"
  const LEGACY := Text("2.4.1")
  const GENERATED := Text("2.4.1B")

  /** Records the generator itself wrote. */
  predicate Generated(r: Record) {
    Get(r, Version) == GENERATED
  }

  /** The record with its checksum, which covers everything but itself. */
  function Stamp(r: Record, sha: Record -> string): Record {
    r[Checksum := Text(sha(r - {Checksum}))]
  }

  /** Filling in fixed values and stamping: once done, doing it again changes nothing. */
  lemma StampTwice(r: Record, fields: Record, sha: Record -> string)
    requires Checksum !in fields
    ensures var once := Stamp(r + fields, sha); Stamp(once + fields, sha) == once
  {
    var once := Stamp(r + fields, sha);
    assert (once + fields) - {Checksum} == (r + fields) - {Checksum};
    assert Stamp(once + fields, sha) == once;
  }

  lemma StampKeeps(r: Record, fields: Record, sha: Record -> string, f: Field)
    requires f !in fields && f != Checksum
    ensures f in Stamp(r + fields, sha) <==> f in r
    ensures f in r ==> Stamp(r + fields, sha)[f] == r[f]
  {
  }

  /** A written field holds what was written. */
  lemma StampWrites(r: Record, fields: Record, sha: Record -> string, f: Field)
    requires f in fields && f != Checksum
    ensures Get(Stamp(r + fields, sha), f) == fields[f]
  {
  }

  // ------------------------------------------------------------- legacy records

  predicate LegacyOf(r: Record, standards: seq<string>) {
    Get(r, Version) == LEGACY && Get(r, SourceStandard).Text? && Get(r, SourceStandard).text in standards
  }

  /** `record.update(...)` and a new checksum, for a legacy record of one of the standards. */
  function FillLegacy(r: Record, standards: seq<string>, update: Record -> Option<Record>,
                      sha: Record -> string): Option<Record> {
    if !LegacyOf(r, standards) then Some(r)
    else
      var fields :- update(r);
      Some(Stamp(r + fields, sha))
  }

  /** Equal but for the fields written and the checksum. */
  ghost predicate Agree(a: Record, b: Record, written: Field -> bool) {
    forall f {:trigger f in a} {:trigger f in b} :: !written(f) && f != Checksum ==>
      (f in a <==> f in b) && (f in a ==> a[f] == b[f])
  }

  /** An update that reads none of the fields it writes, nor the checksum. */
  ghost predicate ReadsApart(update: Record -> Option<Record>, written: Field -> bool) {
    && !written(Checksum) && !written(Version) && !written(SourceStandard)
    && (forall a, f :: update(a).Some? && f in update(a).value ==> written(f))
    && (forall a, b {:trigger update(a), update(b)} :: Agree(a, b, written) ==> update(a) == update(b))
  }

  lemma FillLegacyTwice(r: Record, standards: seq<string>, update: Record -> Option<Record>,
                        sha: Record -> string, written: Field -> bool)
    requires ReadsApart(update, written)
    requires FillLegacy(r, standards, update, sha).Some?
    ensures var once := FillLegacy(r, standards, update, sha).value;
      && FillLegacy(once, standards, update, sha) == Some(once)
      && Agree(r, once, written)
  {
    if LegacyOf(r, standards) {
      var fields := update(r).value;
      var once := Stamp(r + fields, sha);
      forall f | !written(f) && f != Checksum
        ensures (f in r <==> f in once) && (f in r ==> r[f] == once[f])
      {
        StampKeeps(r, fields, sha, f);
      }
      assert Agree(r, once, written);
      assert update(once) == update(r);
      StampTwice(r, fields, sha);
    }
  }

  function Filler(standards: seq<string>, update: Record -> Option<Record>,
                  sha: Record -> string): Record -> Option<Record> {
    r => FillLegacy(r, standards, update, sha)
  }

  lemma FillLegacySettles(standards: seq<string>, update: Record -> Option<Record>,
                          sha: Record -> string, written: Field -> bool)
    requires ReadsApart(update, written)
    ensures Settles(Filler(standards, update, sha))
  {
    var fill := Filler(standards, update, sha);
    forall r | fill(r).Some?
      ensures fill(fill(r).value) == fill(r) && Get(fill(r).value, Version) == Get(r, Version)
    {
      FillLegacyTwice(r, standards, update, sha, written);
    }
  }

  // ---------------------------------------------------------------------- files

  datatype Payload = Payload(records: seq<Record>, version: string, description: Option<string>)

  /** Every element through a step that may raise, in order; the first failure ends it. */
  function MapAll<T, U>(xs: seq<T>, f: T -> Option<U>): Option<seq<U>> {
    if xs == [] then Some([])
    else
      var first :- f(xs[0]);
      var rest :- MapAll(xs[1..], f);
      Some([first] + rest)
  }

  lemma {:induction false} MapAllExactly<T, U>(xs: seq<T>, f: T -> Option<U>)
    ensures MapAll(xs, f).Some? <==> forall i :: 0 <= i < |xs| ==> f(xs[i]).Some?
    ensures MapAll(xs, f).Some? ==>
              && |MapAll(xs, f).value| == |xs|
              && forall i :: 0 <= i < |xs| ==> f(xs[i]) == Some(MapAll(xs, f).value[i])
  {
    if xs != [] {
      MapAllExactly(xs[1..], f);
      assert forall i :: 0 < i < |xs| ==> xs[i] == xs[1..][i - 1];
      if forall i :: 0 <= i < |xs| ==> f(xs[i]).Some? {
        forall i | 0 <= i < |xs[1..]| ensures f(xs[1..][i]).Some? {
          assert xs[1..][i] == xs[i + 1];
        }
      }
    }
  }

  lemma MapAllFixed<T>(xs: seq<T>, f: T -> Option<T>)
    requires forall x :: x in xs ==> f(x) == Some(x)
    ensures MapAll(xs, f) == Some(xs)
  {
    MapAllExactly(xs, f);
    assert MapAll(xs, f).value == xs;
  }

  function StripGenerated(records: seq<Record>): seq<Record> {
    Filter(records, (r: Record) => !Generated(r))
  }

  predicate AllHaveIds(records: seq<Record>) {
    forall r :: r in records ==> Id in r
  }

  predicate Collide(existing: seq<Record>, added: seq<Record>) {
    exists r, s :: r in existing && s in added && Get(r, Id) == Get(s, Id)
  }

  predicate DistinctIds(records: seq<Record>) {
    forall i, j :: 0 <= i < j < |records| ==> Get(records[i], Id) != Get(records[j], Id)
  }

  /** The text appended to a file's description, once. */
  function Extend(description: string, suffix: string): string {
    if Contains(description, MARK) then description else description + suffix
  }

  /** The two id assertions and the rewritten file. */
  function Finish(p: Payload, kept: seq<Record>, added: seq<Record>,
                  suffix: string, fallback: Option<string>): Option<Payload> {
    var description :- if p.description.Some? then p.description else fallback;
    if !AllHaveIds(kept) || !DistinctIds(added) || Collide(kept, added) then None
    else Some(Payload(kept + added, "2.4.1B", Some(Extend(description, suffix))))
  }

  /**
   One data file through the generator: fill in the legacy records, drop what an earlier run
   generated, build the new records from what is left, refuse a clash of ids, and append.
   None is a run that raised before it saved anything.
   */
  function Stage(p: Payload, fill: Record -> Option<Record>,
                 build: seq<Record> -> Option<seq<Record>>,
                 suffix: string, fallback: Option<string>): Option<Payload> {
    var filled :- MapAll(p.records, fill);
    var kept := StripGenerated(filled);
    var added :- build(kept);
    Finish(p, kept, added, suffix, fallback)
  }

  /** Filling in once is enough, keeps the version, and passes generated records by. */
  ghost predicate Settles(fill: Record -> Option<Record>) {
    && (forall r {:trigger fill(r)} :: fill(r).Some? ==>
          fill(fill(r).value) == fill(r) && Get(fill(r).value, Version) == Get(r, Version))
    && (forall r {:trigger fill(r)} :: Generated(r) ==> fill(r) == Some(r))
  }

  ghost predicate Tags(build: seq<Record> -> Option<seq<Record>>) {
    forall s, r :: build(s).Some? && r in build(s).value ==> Generated(r)
  }

  lemma {:induction false} StripFixed(records: seq<Record>)
    requires forall r :: r in records ==> !Generated(r)
    ensures StripGenerated(records) == records
  {
    if records != [] { StripFixed(records[1..]); }
  }

  lemma {:induction false} StripAll(records: seq<Record>)
    requires forall r :: r in records ==> Generated(r)
    ensures StripGenerated(records) == []
  {
    if records != [] { StripAll(records[1..]); }
  }

  lemma StripMember(records: seq<Record>, r: Record)
    ensures r in StripGenerated(records) <==> r in records && !Generated(r)
  {
    FilterMember(records, (r: Record) => !Generated(r), r);
  }

  /** The result of a stage is a fixed point of it, provided the suffix marks the description. */
  lemma StageIdempotent(p: Payload, fill: Record -> Option<Record>,
                        build: seq<Record> -> Option<seq<Record>>,
                        suffix: string, fallback: Option<string>)
    requires Settles(fill) && Tags(build) && Contains(suffix, MARK)
    requires Stage(p, fill, build, suffix, fallback).Some?
    ensures var once := Stage(p, fill, build, suffix, fallback).value;
            Stage(once, fill, build, suffix, fallback) == Some(once)
  {
    var once := Stage(p, fill, build, suffix, fallback).value;
    var filled := MapAll(p.records, fill).value;
    var kept := StripGenerated(filled);
    var added := build(kept).value;
    MapAllExactly(p.records, fill);
    forall r | r in kept + added ensures fill(r) == Some(r) {
      if r in kept {
        StripMember(filled, r);
        var i :| 0 <= i < |filled| && filled[i] == r;
        assert fill(p.records[i]) == Some(r);
      }
    }
    MapAllFixed(kept + added, fill);
    forall r | r in kept ensures !Generated(r) { StripMember(filled, r); }
    StripFixed(kept);
    StripAll(added);
    FilterConcat(kept, added, (r: Record) => !Generated(r));
    assert StripGenerated(kept + added) == kept;
    ExtendedOnce(if p.description.Some? then p.description.value else fallback.value, suffix);
  }

  lemma ExtendedOnce(description: string, suffix: string)
    requires Contains(suffix, MARK)
    ensures Extend(Extend(description, suffix), suffix) == Extend(description, suffix)
  {
    if !Contains(description, MARK) {
      var extended := description + suffix;
      assert extended[|description|..|description| + |suffix|] == suffix;
      assert FoundAt(extended, suffix, |description|);
      ContainsTransitive(extended, suffix, MARK);
    }
  }

  /** Exactly when a stage gets through, and what it saves. */
  lemma StageExactly(p: Payload, fill: Record -> Option<Record>,
                     build: seq<Record> -> Option<seq<Record>>,
                     suffix: string, fallback: Option<string>)
    ensures var once, filled := Stage(p, fill, build, suffix, fallback), MapAll(p.records, fill);
      if filled.None? then once.None?
      else
        var kept := Filter(filled.value, (r: Record) => Get(r, Version) != Text("2.4.1B"));
        && (once.Some? <==>
              && build(kept).Some? && (p.description.Some? || fallback.Some?)
              && (forall r :: r in kept ==> Id in r)
              && (forall i, j :: 0 <= i < j < |build(kept).value| ==>
                    Get(build(kept).value[i], Id) != Get(build(kept).value[j], Id))
              && (forall r, s :: r in kept && s in build(kept).value ==> Get(r, Id) != Get(s, Id)))
        && (once.Some? ==>
              var was := if p.description.Some? then p.description.value else fallback.value;
              && once.value.records == kept + build(kept).value && once.value.version == "2.4.1B"
              && once.value.description == Some(if Contains(was, "Faz 2.4.1B") then was else was + suffix))
  {
    var filled := MapAll(p.records, fill);
    if filled.Some? { StripsTagged(filled.value); }
  }

  lemma {:induction false} StripsTagged(records: seq<Record>)
    ensures StripGenerated(records) == Filter(records, (r: Record) => Get(r, Version) != Text("2.4.1B"))
  {
    if records != [] { StripsTagged(records[1..]); }
  }

  /** What a stage leaves alone: other people's records, in place, filled in at most. */
  lemma StageKeeps(p: Payload, fill: Record -> Option<Record>,
                   build: seq<Record> -> Option<seq<Record>>,
                   suffix: string, fallback: Option<string>)
    requires Settles(fill) && Tags(build)
    requires Stage(p, fill, build, suffix, fallback).Some?
    ensures var once := Stage(p, fill, build, suffix, fallback).value;
      && MapAll(StripGenerated(p.records), fill) == Some(StripGenerated(once.records))
      && StripGenerated(once.records) <= once.records
      && forall r :: r in once.records[|StripGenerated(once.records)|..] ==> Generated(r)
  {
    var once := Stage(p, fill, build, suffix, fallback).value;
    var kept := StripGenerated(MapAll(p.records, fill).value);
    var added := build(kept).value;
    forall r | r in kept ensures !Generated(r) { StripMember(MapAll(p.records, fill).value, r); }
    StripFixed(kept);
    StripAll(added);
    FilterConcat(kept, added, (r: Record) => !Generated(r));
    assert once.records == kept + added;
    assert StripGenerated(once.records) == kept;
    StripCommutes(p.records, fill);
  }

  /** Each record of one list, filled in, is the one at its place in the other. */
  ghost predicate FilledInOrder(own: seq<Record>, kept: seq<Record>, fill: Record -> Option<Record>) {
    |kept| == |own| && forall i :: 0 <= i < |own| ==> fill(own[i]) == Some(kept[i])
  }

  /** The records a stage keeps, and those it has built from them. */
  lemma StageSaves(p: Payload, fill: Record -> Option<Record>, build: seq<Record> -> Option<seq<Record>>,
                   suffix: string, fallback: Option<string>) returns (kept: seq<Record>, added: seq<Record>)
    requires Settles(fill) && Tags(build) && Stage(p, fill, build, suffix, fallback).Some?
    ensures var once := Stage(p, fill, build, suffix, fallback).value;
      once.records == kept + added && kept == StripGenerated(once.records)
    ensures build(kept) == Some(added) && FilledInOrder(StripGenerated(p.records), kept, fill)
  {
    kept := StripGenerated(MapAll(p.records, fill).value);
    added := build(kept).value;
    forall r | r in kept ensures !Generated(r) { StripMember(MapAll(p.records, fill).value, r); }
    StripFixed(kept);
    StripAll(added);
    FilterConcat(kept, added, (r: Record) => !Generated(r));
    StripCommutes(p.records, fill);
    MapAllExactly(StripGenerated(p.records), fill);
  }

  lemma {:induction false} StripCommutes(records: seq<Record>, fill: Record -> Option<Record>)
    requires Settles(fill) && MapAll(records, fill).Some?
    ensures MapAll(StripGenerated(records), fill) == Some(StripGenerated(MapAll(records, fill).value))
  {
    if records != [] {
      StripCommutes(records[1..], fill);
      assert fill(records[0]).Some?;
      assert MapAll(records, fill).value[1..] == MapAll(records[1..], fill).value;
      if !Generated(records[0]) {
        assert StripGenerated(records) == [records[0]] + StripGenerated(records[1..]);
        assert StripGenerated(records)[1..] == StripGenerated(records[1..]);
      }
    }
  }

  // -------------------------------------------------------------------- methods

  /** How many records the backfill updates. */
  function CountLegacy(records: seq<Record>, standards: seq<string>): nat {
    |Filter(records, (r: Record) => LegacyOf(r, standards))|
  }

  /** The backfill loop, in place; None when a record lacks what it reads. */
  method Backfill(records: array<Record>, standards: seq<string>, update: Record -> Option<Record>,
                  sha: Record -> string)
    returns (updated: Option<nat>)
    modifies records
    ensures updated.None? <==> MapAll(old(records[..]), Filler(standards, update, sha)).None?
    ensures updated.Some? ==>
              && MapAll(old(records[..]), Filler(standards, update, sha)) == Some(records[..])
              && updated.value == CountLegacy(old(records[..]), standards)
  {
    ghost var was := records[..];
    ghost var fill := Filler(standards, update, sha);
    ghost var legacy := (r: Record) => LegacyOf(r, standards);
    MapAllExactly(was, fill);
    var count := 0;
    for i := 0 to records.Length
      invariant forall j :: 0 <= j < i ==> fill(was[j]) == Some(records[j])
      invariant forall j :: i <= j < records.Length ==> records[j] == was[j]
      invariant count == |Filter(was[..i], legacy)|
    {
      assert was[..i + 1] == was[..i] + [was[i]];
      FilterConcat(was[..i], [was[i]], legacy);
      if LegacyOf(records[i], standards) {
        var fields := update(records[i]);
        if fields.None? {
          assert fill(was[i]).None?;
          return None;
        }
        records[i] := Stamp(records[i] + fields.value, sha);
        count := count + 1;
      }
    }
    assert was[..records.Length] == was;
    assert MapAll(was, fill).value == records[..];
    return Some(count);
  }

  /** The backfill run over the records of a loaded file. */
  method BackfillLoaded(loaded: seq<Record>, standards: seq<string>, update: Record -> Option<Record>,
                        sha: Record -> string)
    returns (filled: Option<seq<Record>>)
    ensures filled == MapAll(loaded, Filler(standards, update, sha))
  {
    var records := new Record[|loaded|](i requires 0 <= i < |loaded| => loaded[i]);
    assert records[..] == loaded;
    var updated := Backfill(records, standards, update, sha);
    return if updated.None? then None else Some(records[..]);
  }

  /** The append loops that build the new records. */
  method Generate<T>(plans: seq<T>, make: T -> Option<Record>) returns (records: Option<seq<Record>>)
    ensures records == MapAll(plans, make)
  {
    MapAllExactly(plans, make);
    var built: seq<Record> := [];
    for i := 0 to |plans|
      invariant |built| == i && forall j :: 0 <= j < i ==> make(plans[j]) == Some(built[j])
    {
      var next := make(plans[i]);
      if next.None? { return None; }
      built := built + [next.value];
    }
    assert MapAll(plans, make).value == built;
    return Some(built);
  }
}
