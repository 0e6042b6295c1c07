/**
 The thread geometry verification and confidence upgrade
 (tools/verify_thread_geometry_faz_2_8_2.py): `analyze` judges each record in scope, and
 `apply_upgrades` rewrites the ones found to need it. The ISO formulas that re-derive the
 geometry, their rounding included, the wording of the notes and SHA-256 are arbitrary.
 */
module ThreadUpgrade {
  import opened Options
  import opened Reals
  import opened Sorting
  import opened Text

  const DIAMETER_TOLERANCE := 0.0005
  const STRESS_AREA_ABS_FLOOR := 0.002
  const STRESS_AREA_REL_TOLERANCE := 0.00002
  const REVISION_DATE := "2026-07-25"

  /** The stored geometry, which nothing here may change. */
  datatype Geometry = Geometry(
    major: Option<real>, pitchDiameter: Option<real>, minor: Option<real>,
    minorInternal: Option<real>, minorExternal: Option<real>, stressArea: Option<real>)

  /** What an upgrade rewrites. */
  datatype Grading = Grading(
    confidence: Option<int>, confidenceLevel: Option<int>, validation: Option<string>, review: Option<string>,
    approval: Option<string>, revision: string, sourceRevision: string, notes: string, source: string,
    sourceReference: string)

  datatype Record = Record(
    id: string, series: string, nominal: real, pitch: real, geometry: Geometry, grading: Grading,
    others: map<string, string>, checksum: string)

  /** The geometry the formulas give for a diameter and a pitch. */
  datatype Derived = Derived(
    major: real, pitchDiameter: real, minorInternal: real, minorExternal: real, stressArea: real)

  /** `derive` raises (None) for sizes that give no thread, such as a pitch too large for the diameter. */
  datatype Tools = Tools(
    derive: (real, real) -> Option<Derived>, sha: Record -> string, notes: string -> string, source: string)

  // ------------------------------------------------------------------- judgement

  predicate InScope(r: Record) {
    r.series == "Fine" || r.series == "Extra Fine" || (r.series == "Coarse" && r.nominal >= 68.0)
  }

  /** The evidence table: five coarse sizes are corroborated, three are listed without evidence. */
  predicate HasEvidence(id: string) {
    || id == "THR-M68-COARSE" || id == "THR-M72-COARSE" || id == "THR-M80-COARSE"
    || id == "THR-M90-COARSE" || id == "THR-M100-COARSE"
  }

  predicate Corroborated(r: Record) {
    r.series != "Fine" && r.series != "Extra Fine" && HasEvidence(r.id)
  }

  predicate Within(calculated: real, stored: Option<real>, tolerance: real) {
    stored.Some? && Abs(calculated - stored.value) <= tolerance
  }

  function StressTolerance(stored: Option<real>): real {
    var relative := if stored.Some? then Abs(stored.value) * STRESS_AREA_REL_TOLERANCE else 0.0;
    if relative > STRESS_AREA_ABS_FLOOR then relative else STRESS_AREA_ABS_FLOOR
  }

  predicate GeometryVerified(r: Record, t: Tools) {
    var derived, g := t.derive(r.nominal, r.pitch), r.geometry;
    && derived.Some?
    && var d := derived.value;
    && Within(d.major, g.major, DIAMETER_TOLERANCE)
    && Within(d.pitchDiameter, g.pitchDiameter, DIAMETER_TOLERANCE)
    && Within(d.minorInternal, g.minor, DIAMETER_TOLERANCE)
    && Within(d.minorInternal, g.minorInternal, DIAMETER_TOLERANCE)
    && Within(d.minorExternal, g.minorExternal, DIAMETER_TOLERANCE)
    && Within(d.stressArea, g.stressArea, StressTolerance(g.stressArea))
  }

  predicate NoIssues(r: Record) {
    var g := r.geometry;
    && r.nominal > 0.0 && r.pitch > 0.0
    && (g.major.Some? && g.pitchDiameter.Some? ==> g.major.value >= g.pitchDiameter.value)
    && (g.pitchDiameter.Some? && g.minor.Some? ==> g.pitchDiameter.value >= g.minor.value)
    && (g.minor.Some? ==> g.minor.value > 0.0)
    && (g.stressArea.Some? ==> g.stressArea.value > 0.0)
  }

  predicate Eligible(r: Record, t: Tools) {
    Corroborated(r) && GeometryVerified(r, t) && NoIssues(r)
  }

  ghost predicate Near(calculated: real, stored: Option<real>, tolerance: real) {
    stored.Some? && -tolerance <= calculated - stored.value <= tolerance
  }

  /** One of the corroborated coarse sizes, stored as the formulas give it, in an order that makes sense. */
  ghost predicate Deserves(r: Record, t: Tools) {
    var g := r.geometry;
    && r.series != "Fine" && r.series != "Extra Fine"
    && r.id in {"THR-M68-COARSE", "THR-M72-COARSE", "THR-M80-COARSE", "THR-M90-COARSE", "THR-M100-COARSE"}
    && t.derive(r.nominal, r.pitch).Some?
    && var d := t.derive(r.nominal, r.pitch).value;
    && Near(d.major, g.major, 0.0005) && Near(d.pitchDiameter, g.pitchDiameter, 0.0005)
    && Near(d.minorInternal, g.minor, 0.0005) && Near(d.minorInternal, g.minorInternal, 0.0005)
    && Near(d.minorExternal, g.minorExternal, 0.0005)
    && g.stressArea.Some?
    && (Near(d.stressArea, g.stressArea, 0.002) || Near(d.stressArea, g.stressArea, 0.00002 * g.stressArea.value))
    && r.nominal > 0.0 && r.pitch > 0.0
    && g.major.value >= g.pitchDiameter.value >= g.minor.value > 0.0 && g.stressArea.value > 0.0
  }

  lemma WithinIsNear(calculated: real, stored: Option<real>, tolerance: real)
    ensures Within(calculated, stored, tolerance) <==> Near(calculated, stored, tolerance)
  {
  }

  lemma EligibleExactly(r: Record, t: Tools)
    ensures Eligible(r, t) <==> Deserves(r, t)
  {
    if t.derive(r.nominal, r.pitch).Some? {
      var d, g := t.derive(r.nominal, r.pitch).value, r.geometry;
      WithinIsNear(d.major, g.major, 0.0005);
      WithinIsNear(d.pitchDiameter, g.pitchDiameter, 0.0005);
      WithinIsNear(d.minorInternal, g.minor, 0.0005);
      WithinIsNear(d.minorInternal, g.minorInternal, 0.0005);
      WithinIsNear(d.minorExternal, g.minorExternal, 0.0005);
      WithinIsNear(d.stressArea, g.stressArea, StressTolerance(g.stressArea));
    }
  }

  predicate AtTarget(r: Record) {
    r.grading.confidence == Some(3) && r.grading.validation == Some("reference_only")
  }

  datatype Verdict = Verdict(id: string, eligible: bool, actionNeeded: bool, confidenceAfter: Option<int>)

  function Judge(t: Tools): Record -> Verdict {
    (r: Record) => Verdict(r.id, Eligible(r, t), Eligible(r, t) && !AtTarget(r),
                 if Eligible(r, t) then Some(3) else r.grading.confidence)
  }

  /** The report order: series, then nominal diameter. */
  predicate ReportLe(a: Record, b: Record) {
    if a.series == b.series then a.nominal <= b.nominal else StrLe(a.series, b.series)
  }

  function Targets(records: seq<Record>): seq<Record> {
    Sort(Filter(records, InScope), ReportLe)
  }

  function Analyze(records: seq<Record>, t: Tools): seq<Verdict> {
    Map(Targets(records), Judge(t))
  }

  /** The verdict on one record. */
  ghost predicate JudgedAs(r: Record, t: Tools, v: Verdict) {
    && v.id == r.id && (v.eligible <==> Deserves(r, t))
    && (v.actionNeeded <==>
          Deserves(r, t) && !(r.grading.confidence == Some(3) && r.grading.validation == Some("reference_only")))
    && v.confidenceAfter == if Deserves(r, t) then Some(3) else r.grading.confidence
  }

  predicate SameSize(r: Record, s: Record) {
    r.series == s.series && r.nominal == s.nominal
  }

  /** Records of the fine series and the large coarse ones, by series and diameter, ties as they stood. */
  ghost predicate InReportOrder(records: seq<Record>, targets: seq<Record>) {
    && (forall r :: r in targets <==>
          r in records && (r.series in {"Fine", "Extra Fine"} || (r.series == "Coarse" && r.nominal >= 68.0)))
    && (forall i, j :: 0 <= i < j < |targets| ==>
          if targets[i].series == targets[j].series then targets[i].nominal <= targets[j].nominal
          else StrLe(targets[i].series, targets[j].series))
    && (forall r :: r in targets ==>
          Filter(targets, (s: Record) => SameSize(r, s)) == Filter(records, (s: Record) => SameSize(r, s)))
  }

  lemma ReportSortable()
    ensures Sortable(ReportLe)
  {
    forall a, b ensures ReportLe(a, b) || ReportLe(b, a) { StrLeTotal(a.series, b.series); }
    forall a, b, c | ReportLe(a, b) && ReportLe(b, c) ensures ReportLe(a, c) {
      StrLeTotal(b.series, b.series);
      StrLeTransitive(a.series, b.series, c.series);
      if a.series == c.series { StrLeAntisymmetric(a.series, b.series); }
    }
  }

  lemma {:induction false} FilterTwice(records: seq<Record>, p: Record -> bool, q: Record -> bool)
    requires forall r :: q(r) ==> p(r)
    ensures Filter(Filter(records, p), q) == Filter(records, q)
  {
    if records != [] { FilterTwice(records[1..], p, q); }
  }

  lemma TargetsInOrder(records: seq<Record>)
    ensures InReportOrder(records, Targets(records))
  {
    var targets := Targets(records);
    ReportSortable();
    SortSorts(Filter(records, InScope), ReportLe);
    forall i, j | 0 <= i < j < |targets| ensures ReportLe(targets[i], targets[j]) {}
    forall r ensures r in targets <==> r in records && InScope(r) { TargetsMember(records, r); }
    forall r | r in targets
      ensures Filter(targets, (s: Record) => SameSize(r, s)) == Filter(records, (s: Record) => SameSize(r, s))
    {
      var tie := (s: Record) => SameSize(r, s);
      SortStable(Filter(records, InScope), ReportLe, tie);
      FilterTwice(records, InScope, tie);
    }
  }

  lemma VerdictsJudge(records: seq<Record>, t: Tools)
    ensures var targets, verdicts := Targets(records), Analyze(records, t);
      |verdicts| == |targets| && forall i :: 0 <= i < |targets| ==> JudgedAs(targets[i], t, verdicts[i])
  {
    var targets, verdicts := Targets(records), Analyze(records, t);
    forall i | 0 <= i < |targets| ensures JudgedAs(targets[i], t, verdicts[i]) {
      assert verdicts[i] == Judge(t)(targets[i]);
      EligibleExactly(targets[i], t);
    }
  }

  datatype Totals = Totals(reviewed: nat, kept: nat, upgraded: nat, remainingG4: nat)

  /** The geometry of every record in scope can be derived again. */
  ghost predicate Analyzable(records: seq<Record>, t: Tools) {
    forall r :: r in records && InScope(r) ==> t.derive(r.nominal, r.pitch).Some?
  }

  lemma TargetsMember(records: seq<Record>, r: Record)
    ensures r in Targets(records) <==> r in records && InScope(r)
  {
    SamePermutation(Targets(records), Filter(records, InScope));
    FilterMember(records, InScope, r);
  }

  /** Looking at the records in report order is looking at all of them. */
  lemma AnalyzableTargets(records: seq<Record>, t: Tools)
    ensures var targets := Targets(records);
      Analyzable(records, t)
      <==> forall i :: 0 <= i < |targets| ==> t.derive(targets[i].nominal, targets[i].pitch).Some?
  {
    var targets := Targets(records);
    forall i | 0 <= i < |targets| ensures targets[i] in records && InScope(targets[i]) {
      TargetsMember(records, targets[i]);
    }
    forall r | r in records && InScope(r) ensures r in targets { TargetsMember(records, r); }
  }

  /** The loop over the targets in report order; not `ok` when a derivation raises. */
  method JudgeLoop(targets: seq<Record>, t: Tools) returns (ok: bool, verdicts: seq<Verdict>)
    ensures ok <==> forall i :: 0 <= i < |targets| ==> t.derive(targets[i].nominal, targets[i].pitch).Some?
    ensures ok ==> verdicts == Map(targets, Judge(t))
  {
    verdicts := [];
    for i := 0 to |targets|
      invariant |verdicts| == i && forall j :: 0 <= j < i ==> verdicts[j] == Judge(t)(targets[j])
      invariant forall j :: 0 <= j < i ==> t.derive(targets[j].nominal, targets[j].pitch).Some?
    {
      if t.derive(targets[i].nominal, targets[i].pitch).None? { return false, []; }
      var verdict := JudgeOne(targets[i], t);
      verdicts := verdicts + [verdict];
    }
    ok := true;
  }

  /** One verdict per record in scope, in report order, unless one of them cannot be derived again. */
  method AnalyzeLoop(records: seq<Record>, t: Tools) returns (ok: bool, verdicts: seq<Verdict>)
    ensures ok <==> Analyzable(records, t)
    ensures ok ==> verdicts == Analyze(records, t)
    ensures ok ==> var targets := Targets(records);
      && InReportOrder(records, targets) && |verdicts| == |targets|
      && forall i :: 0 <= i < |targets| ==> JudgedAs(targets[i], t, verdicts[i])
  {
    TargetsInOrder(records);
    VerdictsJudge(records, t);
    AnalyzableTargets(records, t);
    ok, verdicts := JudgeLoop(Targets(records), t);
  }

  /** The totals of the report: every verdict is counted once, as unchanged or as upgraded. */
  method Tally(verdicts: seq<Verdict>) returns (totals: Totals)
    ensures totals.reviewed == |verdicts| == totals.kept + totals.upgraded
    ensures totals.upgraded == |Filter(verdicts, (v: Verdict) => v.eligible)|
    ensures totals.remainingG4 == |Filter(verdicts, (v: Verdict) => v.confidenceAfter == Some(4))|
  {
    var kept, upgraded, remaining := 0, 0, 0;
    ghost var eligible := (v: Verdict) => v.eligible;
    ghost var g4 := (v: Verdict) => v.confidenceAfter == Some(4);
    for i := 0 to |verdicts|
      invariant kept + upgraded == i
      invariant upgraded == |Filter(verdicts[..i], eligible)|
      invariant remaining == |Filter(verdicts[..i], g4)|
    {
      assert verdicts[..i + 1] == verdicts[..i] + [verdicts[i]];
      FilterConcat(verdicts[..i], [verdicts[i]], eligible);
      FilterConcat(verdicts[..i], [verdicts[i]], g4);
      if verdicts[i].eligible { upgraded := upgraded + 1; } else { kept := kept + 1; }
      if verdicts[i].confidenceAfter == Some(4) { remaining := remaining + 1; }
    }
    assert verdicts[..|verdicts|] == verdicts;
    totals := Totals(|verdicts|, kept, upgraded, remaining);
  }

  /** The loop body: the target grade, and whether the record is there already. */
  method JudgeOne(r: Record, t: Tools) returns (verdict: Verdict)
    ensures verdict == Judge(t)(r)
  {
    var candidate := Corroborated(r) && GeometryVerified(r, t) && NoIssues(r);
    var confidence := if candidate then Some(3) else r.grading.confidence;
    var validation := if candidate then Some("reference_only") else r.grading.validation;
    var needed := candidate && (r.grading.confidence != confidence || r.grading.validation != validation);
    verdict := Verdict(r.id, candidate, needed, confidence);
  }

  // --------------------------------------------------------------------- upgrade

  predicate Named(verdicts: seq<Verdict>, id: string) {
    exists i :: 0 <= i < |verdicts| && verdicts[i].id == id && verdicts[i].actionNeeded
  }

  function Upgraded(r: Record, t: Tools): Record {
    var graded := r.(grading := Grading(
      Some(3), Some(3), Some("reference_only"), Some("reference_only"), Some("pending"),
      REVISION_DATE, REVISION_DATE, t.notes(r.id), t.source, t.source));
    graded.(checksum := t.sha(graded.(checksum := "")))
  }

  function Upgrading(verdicts: seq<Verdict>, t: Tools): Record -> Record {
    (r: Record) => if Named(verdicts, r.id) then Upgraded(r, t) else r
  }

  function ApplyUpgrades(records: seq<Record>, verdicts: seq<Verdict>, t: Tools): seq<Record> {
    Map(records, Upgrading(verdicts, t))
  }

  /** The rewriting loop, in place. */
  method ApplyInPlace(records: array<Record>, verdicts: seq<Verdict>, t: Tools)
    modifies records
    ensures records[..] == ApplyUpgrades(old(records[..]), verdicts, t)
  {
    for i := 0 to records.Length
      invariant forall j :: 0 <= j < i ==> records[j] == Upgrading(verdicts, t)(old(records[j]))
      invariant forall j :: i <= j < records.Length ==> records[j] == old(records[j])
    {
      if Named(verdicts, records[i].id) { records[i] := Upgraded(records[i], t); }
    }
  }

  /** What identifies and measures a record: everything but its grading and checksum. */
  predicate SameThread(a: Record, b: Record) {
    && a.id == b.id && a.series == b.series && a.nominal == b.nominal && a.pitch == b.pitch
    && a.geometry == b.geometry && a.others == b.others
  }

  /** What an upgrade writes: the reference grade, still to be approved, under a fresh checksum. */
  ghost predicate UpgradedTo(r: Record, t: Tools) {
    && r.grading.confidence == Some(3) && r.grading.confidenceLevel == Some(3)
    && r.grading.validation == Some("reference_only") && r.grading.review == Some("reference_only")
    && r.grading.approval == Some("pending")
    && r.grading.revision == "2026-07-25" && r.grading.sourceRevision == "2026-07-25"
    && r.grading.notes == t.notes(r.id) && r.grading.source == t.source && r.grading.sourceReference == t.source
    && r.checksum == t.sha(r.(checksum := ""))
  }

  /** An upgrade changes no identity and no geometry, and changes only records named for it. */
  lemma GeometryNeverChanges(records: seq<Record>, verdicts: seq<Verdict>, t: Tools, i: nat)
    requires i < |records|
    ensures var after := ApplyUpgrades(records, verdicts, t);
      && |after| == |records| && SameThread(after[i], records[i])
      && (!Named(verdicts, records[i].id) ==> after[i] == records[i])
      && (Named(verdicts, records[i].id) ==> AtTarget(after[i]) && UpgradedTo(after[i], t))
  {
  }

  lemma JudgedAlike(a: Record, b: Record, t: Tools)
    requires SameThread(a, b)
    ensures Eligible(a, t) == Eligible(b, t) && InScope(a) == InScope(b)
  {
  }

  // ------------------------------------------------- sorting commutes with mapping

  lemma MapCons<T>(x: T, xs: seq<T>, f: T -> T)
    ensures Map([x] + xs, f) == [f(x)] + Map(xs, f)
  {
  }

  lemma {:induction false} FilterMap<T>(xs: seq<T>, p: T -> bool, f: T -> T)
    requires forall x :: p(f(x)) == p(x)
    ensures Filter(Map(xs, f), p) == Map(Filter(xs, p), f)
  {
    if xs != [] {
      FilterMap(xs[1..], p, f);
      assert Map(xs, f)[1..] == Map(xs[1..], f);
      assert Map(xs, f)[0] == f(xs[0]);
      var rest := Filter(xs[1..], p);
      assert Map([xs[0]] + rest, f) == [f(xs[0])] + Map(rest, f);
    }
  }

  lemma {:induction false} InsertMap<T>(x: T, xs: seq<T>, le: (T, T) -> bool, f: T -> T)
    requires forall a, b :: le(f(a), f(b)) == le(a, b)
    ensures Insert(f(x), Map(xs, f), le) == Map(Insert(x, xs, le), f)
    decreases |xs|
  {
    var ys := Map(xs, f);
    if xs == [] || le(x, xs[0]) {
      MapCons(x, xs, f);
    } else {
      InsertMap(x, xs[1..], le, f);
      assert ys[0] == f(xs[0]) && ys[1..] == Map(xs[1..], f);
      MapCons(xs[0], Insert(x, xs[1..], le), f);
    }
  }

  lemma {:induction false} SortMap<T>(xs: seq<T>, le: (T, T) -> bool, f: T -> T)
    requires forall a, b :: le(f(a), f(b)) == le(a, b)
    ensures Sort(Map(xs, f), le) == Map(Sort(xs, le), f)
  {
    if xs != [] {
      SortMap(xs[1..], le, f);
      assert Map(xs, f)[1..] == Map(xs[1..], f);
      InsertMap(xs[0], Sort(xs[1..], le), le, f);
    }
  }

  // ---------------------------------------------------------------- applying it

  lemma TargetsAfter(records: seq<Record>, verdicts: seq<Verdict>, t: Tools)
    ensures Targets(ApplyUpgrades(records, verdicts, t)) == Map(Targets(records), Upgrading(verdicts, t))
  {
    var f := Upgrading(verdicts, t);
    FilterMap(records, InScope, f);
    SortMap(Filter(records, InScope), ReportLe, f);
  }

  /**
   After its findings are applied the analysis asks for nothing more, and still reports the same
   records in the same order with the same eligibility, duplicate ids or not.
   */
  lemma NothingLeftToDo(records: seq<Record>, t: Tools)
    ensures var before := Analyze(records, t);
            var after := Analyze(ApplyUpgrades(records, before, t), t);
      && |after| == |before|
      && forall i :: 0 <= i < |after| ==>
           && !after[i].actionNeeded
           && after[i].id == before[i].id && after[i].eligible == before[i].eligible
           && (after[i].eligible ==> after[i].confidenceAfter == before[i].confidenceAfter == Some(3))
  {
    var before := Analyze(records, t);
    var f := Upgrading(before, t);
    var targets := Targets(records);
    TargetsAfter(records, before, t);
    var after := Analyze(ApplyUpgrades(records, before, t), t);
    forall i | 0 <= i < |after|
      ensures !after[i].actionNeeded && after[i].id == before[i].id && after[i].eligible == before[i].eligible
    {
      assert before[i] == Judge(t)(targets[i]) && after[i] == Judge(t)(f(targets[i]));
      JudgedAlike(f(targets[i]), targets[i], t);
      if before[i].actionNeeded { assert Named(before, targets[i].id); }
    }
  }

  /** An upgrade neither breaks nor repairs the analysis. */
  lemma ApplyKeepsAnalyzable(records: seq<Record>, verdicts: seq<Verdict>, t: Tools)
    ensures Analyzable(ApplyUpgrades(records, verdicts, t), t) <==> Analyzable(records, t)
  {
    var after := ApplyUpgrades(records, verdicts, t);
    forall i | 0 <= i < |records| ensures SameThread(after[i], records[i]) {
      GeometryNeverChanges(records, verdicts, t, i);
    }
    if Analyzable(records, t) {
      forall r | r in after && InScope(r) ensures t.derive(r.nominal, r.pitch).Some? {
        var i :| 0 <= i < |after| && after[i] == r;
        assert records[i] in records && InScope(records[i]);
      }
    }
    if Analyzable(after, t) {
      forall r | r in records && InScope(r) ensures t.derive(r.nominal, r.pitch).Some? {
        var i :| 0 <= i < |records| && records[i] == r;
        assert after[i] in after && InScope(after[i]);
      }
    }
  }

  /** Analyse and apply, twice over, leaves what once left. */
  lemma UpgradeIdempotent(records: seq<Record>, t: Tools)
    ensures var once := ApplyUpgrades(records, Analyze(records, t), t);
            ApplyUpgrades(once, Analyze(once, t), t) == once
  {
    NothingLeftToDo(records, t);
    var once := ApplyUpgrades(records, Analyze(records, t), t);
    forall r | r in once ensures !Named(Analyze(once, t), r.id) {}
  }

  /** A record is rewritten exactly when its id is that of a target needing action. */
  lemma NamedExactly(records: seq<Record>, t: Tools, id: string)
    ensures Named(Analyze(records, t), id)
       <==> exists r :: r in records && r.id == id && InScope(r) && Eligible(r, t) && !AtTarget(r)
  {
    if Named(Analyze(records, t), id) { NamedHasCause(records, t, id); }
    if r :| r in records && r.id == id && InScope(r) && Eligible(r, t) && !AtTarget(r) {
      CauseIsNamed(records, t, r);
    }
  }

  lemma NamedHasCause(records: seq<Record>, t: Tools, id: string)
    requires Named(Analyze(records, t), id)
    ensures exists r :: r in records && r.id == id && InScope(r) && Eligible(r, t) && !AtTarget(r)
  {
    var targets, verdicts := Targets(records), Analyze(records, t);
    var i :| 0 <= i < |verdicts| && verdicts[i].id == id && verdicts[i].actionNeeded;
    SamePermutation(targets, Filter(records, InScope));
    FilterMember(records, InScope, targets[i]);
    assert targets[i] in targets && verdicts[i] == Judge(t)(targets[i]);
  }

  lemma CauseIsNamed(records: seq<Record>, t: Tools, r: Record)
    requires r in records && InScope(r) && Eligible(r, t) && !AtTarget(r)
    ensures Named(Analyze(records, t), r.id)
  {
    var targets, verdicts := Targets(records), Analyze(records, t);
    SamePermutation(targets, Filter(records, InScope));
    FilterMember(records, InScope, r);
    var i :| 0 <= i < |targets| && targets[i] == r;
    assert verdicts[i] == Judge(t)(r);
  }

  /** With distinct ids only records that were themselves found eligible are upgraded. */
  lemma UpgradesAreEarned(records: seq<Record>, t: Tools, i: nat)
    requires i < |records|
    requires forall j, k :: 0 <= j < k < |records| ==> records[j].id != records[k].id
    ensures Named(Analyze(records, t), records[i].id)
       <==> InScope(records[i]) && Eligible(records[i], t) && !AtTarget(records[i])
  {
    NamedExactly(records, t, records[i].id);
  }

  predicate Earned(r: Record, t: Tools) {
    InScope(r) && Eligible(r, t)
  }

  /** Every record that will be rewritten was itself found eligible. */
  ghost predicate OnlyEarned(records: seq<Record>, t: Tools) {
    forall s {:trigger Named(Analyze(records, t), s.id)} :: s in records && Named(Analyze(records, t), s.id) ==>
      Earned(s, t)
  }

  /** No record needing an upgrade shares its id with one that is out of scope or not eligible. */
  ghost predicate SharersEarned(records: seq<Record>, t: Tools) {
    forall r, s :: r in records && s in records && r.id == s.id && Earned(r, t) && !AtTarget(r) ==> Earned(s, t)
  }

  /** In any library, only eligible records are upgraded exactly when those that share an id are eligible together. */
  lemma UpgradesAreEarnedExactly(records: seq<Record>, t: Tools)
    ensures OnlyEarned(records, t) <==> SharersEarned(records, t)
  {
    if OnlyEarned(records, t) {
      forall r, s | r in records && s in records && r.id == s.id && Earned(r, t) && !AtTarget(r) ensures Earned(s, t) {
        CauseIsNamed(records, t, r);
        assert Named(Analyze(records, t), s.id);
      }
    }
    if SharersEarned(records, t) {
      forall s | s in records && Named(Analyze(records, t), s.id) ensures Earned(s, t) {
        NamedHasCause(records, t, s.id);
      }
    }
  }

  /** When two records share an id, one that was never verified is upgraded with the other. */
  lemma SharedIdUpgradesUnverified(good: Record, bad: Record, t: Tools)
    requires InScope(good) && Eligible(good, t) && !AtTarget(good)
    requires bad.id == good.id && !Eligible(bad, t)
    ensures var after := ApplyUpgrades([good, bad], Analyze([good, bad], t), t);
            !Eligible(after[1], t) && AtTarget(after[1])
  {
    NamedExactly([good, bad], t, bad.id);
    assert good in [good, bad];
    JudgedAlike(Upgraded(bad, t), bad, t);
  }
}
