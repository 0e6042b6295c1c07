/**
 Selecting and ranking material records against a stated requirement
 (backend/calculation_engine/material_intelligence.py).
 */
module MaterialRanking {
  import opened Options
  import opened Reals
  import opened Sorting
  import opened Text

  datatype Record = Record(
    id: string, material: string, grade: string,
    rp02: Option<real>, rm: Option<real>, modulus: Option<real>,
    validationStatus: string, approvalStatus: string)

  datatype Requirement = Requirement(
    minRp02: Option<real>, minRm: Option<real>, minModulus: Option<real>, family: Option<string>)

  // -------------------------------------------------------------------- matching

  predicate Meets(value: Option<real>, minimum: Option<real>) {
    minimum.None? || (value.Some? && value.value >= minimum.value)
  }

  function Needle(family: string): string {
    Lower(Strip(family))
  }

  predicate InFamily(record: Record, family: Option<string>) {
    family.None? || family.value == "" || Contains(Lower(record.material), Needle(family.value))
  }

  predicate MeetsNumbers(record: Record, q: Requirement) {
    Meets(record.rp02, q.minRp02) && Meets(record.rm, q.minRm) && Meets(record.modulus, q.minModulus)
  }

  predicate Matches(record: Record, q: Requirement) {
    MeetsNumbers(record, q) && InFamily(record, q.family)
  }

  function MatchMaterials(records: seq<Record>, q: Requirement): seq<Record> {
    Filter(records, (r: Record) => Matches(r, q))
  }

  ghost predicate AtLeast(value: Option<real>, minimum: Option<real>) {
    minimum.Some? ==> value.Some? && value.value >= minimum.value
  }

  /** The record has what is asked for, number by number, and its material names the family. */
  ghost predicate Suits(r: Record, q: Requirement) {
    && AtLeast(r.rp02, q.minRp02) && AtLeast(r.rm, q.minRm) && AtLeast(r.modulus, q.minModulus)
    && (q.family.Some? && q.family.value != "" ==> Contains(Lower(r.material), Lower(Strip(q.family.value))))
  }

  lemma MatchesExactly(r: Record, q: Requirement)
    ensures Matches(r, q) <==> Suits(r, q)
  {
  }

  // ------------------------------------------------------------------ tightening

  predicate NoLooser(tight: Option<real>, loose: Option<real>) {
    loose.None? || (tight.Some? && tight.value >= loose.value)
  }

  predicate NoLooserFamily(tight: Option<string>, loose: Option<string>) {
    || loose.None? || loose.value == ""
    || (tight.Some? && tight.value != "" && Contains(Needle(tight.value), Needle(loose.value)))
  }

  /** Every part of the requirement is at least as strict. */
  predicate Tightens(tight: Requirement, loose: Requirement) {
    && NoLooser(tight.minRp02, loose.minRp02) && NoLooser(tight.minRm, loose.minRm)
    && NoLooser(tight.minModulus, loose.minModulus) && NoLooserFamily(tight.family, loose.family)
  }

  lemma TighterMatches(record: Record, tight: Requirement, loose: Requirement)
    requires Tightens(tight, loose) && Matches(record, tight)
    ensures Matches(record, loose)
  {
    if loose.family.Some? && loose.family.value != "" {
      ContainsTransitive(Lower(record.material), Needle(tight.family.value), Needle(loose.family.value));
    }
  }

  /** Tightening a requirement only strikes records off the list of matches. */
  lemma {:induction false} TighteningOnlyRemoves(records: seq<Record>, tight: Requirement, loose: Requirement)
    requires Tightens(tight, loose)
    ensures MatchMaterials(MatchMaterials(records, loose), tight) == MatchMaterials(records, tight)
  {
    if records != [] {
      TighteningOnlyRemoves(records[1..], tight, loose);
      if Matches(records[0], tight) { TighterMatches(records[0], tight, loose); }
    }
  }

  // ---------------------------------------------------------------------- margin

  /** A stated minimum that is not zero takes part in the margin. */
  predicate Ranks(minimum: Option<real>) {
    minimum.Some? && minimum.value != 0.0
  }

  predicate HasRanking(q: Requirement) {
    Ranks(q.minRp02) || Ranks(q.minRm) || Ranks(q.minModulus)
  }

  function Ratio(value: Option<real>, minimum: Option<real>): seq<real> {
    if Ranks(minimum) && value.Some? then [value.value / minimum.value] else []
  }

  function Ratios(record: Record, q: Requirement): seq<real> {
    Ratio(record.rp02, q.minRp02) + Ratio(record.rm, q.minRm) + Ratio(record.modulus, q.minModulus)
  }

  function Least(xs: seq<real>): (r: real)
    requires xs != []
    ensures r in xs && forall x :: x in xs ==> r <= x
  {
    if |xs| == 1 then xs[0]
    else
      var rest := Least(xs[1..]);
      assert xs == [xs[0]] + xs[1..];
      if xs[0] <= rest then xs[0] else rest
  }

  function Margin(record: Record, q: Requirement): Option<real> {
    var ratios := Ratios(record, q);
    if ratios == [] then None else Some(Least(ratios))
  }

  /** `x` is how many times the minimum the value is. */
  ghost predicate IsRatio(value: Option<real>, minimum: Option<real>, x: real) {
    minimum.Some? && minimum.value != 0.0 && value.Some? && x * minimum.value == value.value
  }

  ghost predicate SomeRatio(record: Record, q: Requirement, x: real) {
    IsRatio(record.rp02, q.minRp02, x) || IsRatio(record.rm, q.minRm, x) || IsRatio(record.modulus, q.minModulus, x)
  }

  lemma Cancel(x: real, y: real, c: real)
    requires c != 0.0 && x * c == y * c
    ensures x == y
  {
    if c > 0.0 { Scale(x, y, c); } else {
      assert x * -c == y * -c;
      Scale(x, y, -c);
    }
  }

  lemma RatioExactly(value: Option<real>, minimum: Option<real>, x: real)
    ensures x in Ratio(value, minimum) <==> IsRatio(value, minimum, x)
  {
    if Ranks(minimum) && value.Some? {
      var r := value.value / minimum.value;
      assert r * minimum.value == value.value;
      if x * minimum.value == value.value { Cancel(x, r, minimum.value); }
    }
  }

  /** For every requirement the margin is the least of the ratios of value to minimum, absent when there is none. */
  lemma MarginExactly(record: Record, q: Requirement)
    ensures Margin(record, q).None? <==> forall x :: !SomeRatio(record, q, x)
    ensures Margin(record, q).Some? ==>
      && SomeRatio(record, q, Margin(record, q).value)
      && forall x :: SomeRatio(record, q, x) ==> Margin(record, q).value <= x
  {
    var ratios := Ratios(record, q);
    forall x ensures x in ratios <==> SomeRatio(record, q, x) {
      RatioExactly(record.rp02, q.minRp02, x);
      RatioExactly(record.rm, q.minRm, x);
      RatioExactly(record.modulus, q.minModulus, x);
      assert x in ratios <==> (x in Ratio(record.rp02, q.minRp02) || x in Ratio(record.rm, q.minRm)
                               || x in Ratio(record.modulus, q.minModulus));
    }
    if ratios != [] { assert Least(ratios) in ratios; }
    assert ratios != [] ==> ratios[0] in ratios;
  }

  method MarginRatio(record: Record, q: Requirement) returns (margin: Option<real>)
    ensures margin == Margin(record, q)
  {
    var ratios: seq<real> := [];
    if q.minRp02.Some? && q.minRp02.value != 0.0 {
      if record.rp02.Some? { ratios := ratios + [record.rp02.value / q.minRp02.value]; }
    }
    if q.minRm.Some? && q.minRm.value != 0.0 {
      if record.rm.Some? { ratios := ratios + [record.rm.value / q.minRm.value]; }
    }
    if q.minModulus.Some? && q.minModulus.value != 0.0 {
      if record.modulus.Some? { ratios := ratios + [record.modulus.value / q.minModulus.value]; }
    }
    assert ratios == Ratios(record, q);
    margin := if ratios == [] then None else Some(Least(ratios));
  }

  /** Among the matches either every margin is present or none is, as the requirement says. */
  lemma MarginPresentExactly(record: Record, q: Requirement)
    requires MeetsNumbers(record, q)
    ensures Margin(record, q).Some? <==> HasRanking(q)
  {
  }

  function ScaleMinimum(minimum: Option<real>, k: real): Option<real> {
    if minimum.None? then None else Some(k * minimum.value)
  }

  /** The requirement with every numeric minimum multiplied by k. */
  function Scaled(q: Requirement, k: real): Requirement {
    q.(minRp02 := ScaleMinimum(q.minRp02, k), minRm := ScaleMinimum(q.minRm, k),
       minModulus := ScaleMinimum(q.minModulus, k))
  }

  predicate NonNegative(minimum: Option<real>) {
    minimum.None? || minimum.value >= 0.0
  }

  predicate NonNegativeRequirement(q: Requirement) {
    NonNegative(q.minRp02) && NonNegative(q.minRm) && NonNegative(q.minModulus)
  }

  lemma MeetsScaled(value: Option<real>, minimum: Option<real>, k: real)
    requires NonNegative(minimum) && Meets(value, minimum)
    ensures Meets(value, ScaleMinimum(minimum, k)) <==> forall x :: x in Ratio(value, minimum) ==> k <= x
  {
    if Ranks(minimum) {
      var ratio := value.value / minimum.value;
      QuotientOrder(value.value, minimum.value, k);
      assert Ratio(value, minimum) == [ratio];
      assert (forall x :: x in [ratio] ==> k <= x) <==> k <= ratio by { assert ratio in [ratio]; }
    } else if minimum.Some? {
      assert k * minimum.value == 0.0;
    }
  }

  /**
   The margin is the reserve: the greatest factor by which the whole requirement could be
   raised with the record still meeting it.
   */
  lemma MarginIsReserve(record: Record, q: Requirement, k: real)
    requires NonNegativeRequirement(q) && Matches(record, q)
    ensures Matches(record, Scaled(q, k))
       <==> Margin(record, q).None? || k <= Margin(record, q).value
  {
    MeetsScaled(record.rp02, q.minRp02, k);
    MeetsScaled(record.rm, q.minRm, k);
    MeetsScaled(record.modulus, q.minModulus, k);
    var ratios := Ratios(record, q);
    assert forall x :: x in ratios <==>
      (x in Ratio(record.rp02, q.minRp02) || x in Ratio(record.rm, q.minRm)
       || x in Ratio(record.modulus, q.minModulus));
  }

  lemma MarginAtLeastOne(record: Record, q: Requirement)
    requires NonNegativeRequirement(q) && Matches(record, q) && Margin(record, q).Some?
    ensures Margin(record, q).value >= 1.0
  {
    assert Scaled(q, 1.0) == q;
    MarginIsReserve(record, q, 1.0);
  }

  /** A negative minimum, which turns its ratio around, is met exactly. */
  predicate NegativeMetExactly(value: Option<real>, minimum: Option<real>) {
    minimum.Some? && minimum.value < 0.0 ==> value == minimum
  }

  lemma RatioAtLeastOne(value: Option<real>, minimum: Option<real>)
    requires Meets(value, minimum)
    ensures (forall x :: x in Ratio(value, minimum) ==> x >= 1.0) <==> NegativeMetExactly(value, minimum)
  {
    if Ranks(minimum) {
      var v, m := value.value, minimum.value;
      var ratio := v / m;
      assert Ratio(value, minimum) == [ratio];
      assert (forall x :: x in [ratio] ==> x >= 1.0) <==> ratio >= 1.0 by { assert ratio in [ratio]; }
      if m > 0.0 { QuotientOrder(v, m, 1.0); } else {
        QuotientOrder(-v, -m, 1.0);
        NegatedQuotient(v, m);
      }
    }
  }

  lemma NegatedQuotient(v: real, m: real)
    requires m < 0.0
    ensures v / m == (-v) / (-m)
  {
    var q := v / m;
    assert q * m == v;
    assert q * -m == -v;
  }

  /** For every requirement: a matching record's margin is at least 1 exactly then. */
  lemma MarginAtLeastOneExactly(record: Record, q: Requirement)
    requires MeetsNumbers(record, q) && Margin(record, q).Some?
    ensures Margin(record, q).value >= 1.0
       <==> && NegativeMetExactly(record.rp02, q.minRp02) && NegativeMetExactly(record.rm, q.minRm)
            && NegativeMetExactly(record.modulus, q.minModulus)
  {
    RatioAtLeastOne(record.rp02, q.minRp02);
    RatioAtLeastOne(record.rm, q.minRm);
    RatioAtLeastOne(record.modulus, q.minModulus);
    var ratios := Ratios(record, q);
    assert forall x :: x in ratios <==>
      (x in Ratio(record.rp02, q.minRp02) || x in Ratio(record.rm, q.minRm)
       || x in Ratio(record.modulus, q.minModulus));
    assert (forall x :: x in ratios ==> x >= 1.0) <==> Least(ratios) >= 1.0;
  }

  /** A matching record with a margin of -1, under a minimum that only a direct caller can state. */
  lemma NegativeMinimumBreaksMargin()
    ensures exists record, q :: Matches(record, q) && Margin(record, q) == Some(-1.0)
  {
    var record := Record("m", "steel", "", Some(1.0), None, None, "", "");
    var q := Requirement(Some(-1.0), None, None, None);
    assert Ratio(record.rp02, q.minRp02) == [-1.0];
    assert Ratios(record, q) == [-1.0];
    assert Matches(record, q) && Margin(record, q) == Some(-1.0);
  }

  /** Enough of a property for the minimum, but not a negative amount. */
  function Plain(minimum: Option<real>): Option<real> {
    if minimum.Some? && minimum.value < 0.0 then Some(0.0) else minimum
  }

  function PlainRecord(q: Requirement): Record {
    Record("", if q.family.Some? then Needle(q.family.value) else "", "",
           Plain(q.minRp02), Plain(q.minRm), Plain(q.minModulus), "", "")
  }

  lemma PlainRecordMatches(q: Requirement)
    ensures Matches(PlainRecord(q), q)
  {
    if q.family.Some? {
      var needle := Needle(q.family.value);
      assert Lower(needle) == needle;
      assert FoundAt(needle, needle, 0);
    }
  }

  /** A requirement gives every matching record a margin of at least 1 exactly when it is non-negative. */
  lemma MarginSoundExactly(q: Requirement)
    ensures (forall r: Record :: Matches(r, q) && Margin(r, q).Some? ==> Margin(r, q).value >= 1.0)
       <==> NonNegativeRequirement(q)
  {
    if NonNegativeRequirement(q) {
      forall r: Record | Matches(r, q) && Margin(r, q).Some? ensures Margin(r, q).value >= 1.0 {
        MarginAtLeastOne(r, q);
      }
    } else {
      var r := PlainRecord(q);
      PlainRecordMatches(q);
      MarginPresentExactly(r, q);
      MarginAtLeastOneExactly(r, q);
    }
  }

  // --------------------------------------------------------------------- ranking

  datatype Candidate = Candidate(record: Record, margin: Option<real>)

  /** The sort key: greater margin first, an absent one last, then the id. */
  predicate RankLe(a: Candidate, b: Candidate) {
    if a.margin == b.margin then StrLe(a.record.id, b.record.id)
    else a.margin.Some? && (b.margin.None? || a.margin.value > b.margin.value)
  }

  lemma RankSortable()
    ensures Sortable(RankLe)
  {
    forall a, b ensures RankLe(a, b) || RankLe(b, a) {
      StrLeTotal(a.record.id, b.record.id);
    }
    forall a, b, c | RankLe(a, b) && RankLe(b, c) ensures RankLe(a, c) {
      if a.margin == b.margin == c.margin {
        StrLeTransitive(a.record.id, b.record.id, c.record.id);
      }
    }
  }

  function Scored(records: seq<Record>, q: Requirement): seq<Candidate> {
    Map(MatchMaterials(records, q), (r: Record) => Candidate(r, Margin(r, q)))
  }

  predicate AnyMargin(scored: seq<Candidate>) {
    exists i :: 0 <= i < |scored| && scored[i].margin.Some?
  }

  /** What is recommended, and in which order. */
  function Recommended(records: seq<Record>, q: Requirement): seq<Candidate> {
    if AnyMargin(Scored(records, q)) then Sort(Scored(records, q), RankLe) else Scored(records, q)
  }

  datatype Level = DataInsufficient | ComparisonOnly | EngineeringReady

  datatype Recommendation = Recommendation(available: bool, level: Level, candidates: seq<Candidate>)

  predicate AllReferenceOnly(records: seq<Record>) {
    forall r :: r in records ==> r.validationStatus == "reference_only"
  }

  predicate AllPending(records: seq<Record>) {
    forall r :: r in records ==> r.approvalStatus == "pending"
  }

  function LevelOf(records: seq<Record>): Level {
    if records == [] then DataInsufficient
    else if AllReferenceOnly(records) || AllPending(records) then ComparisonOnly
    else EngineeringReady
  }

  method MatchLoop(records: seq<Record>, q: Requirement) returns (matches: seq<Record>)
    ensures matches == MatchMaterials(records, q)
  {
    matches := [];
    var p := (r: Record) => Matches(r, q);
    assert records[..0] == [];
    for i := 0 to |records|
      invariant matches == Filter(records[..i], p)
    {
      assert records[..i + 1] == records[..i] + [records[i]];
      FilterConcat(records[..i], [records[i]], p);
      if Matches(records[i], q) { matches := matches + [records[i]]; }
    }
    assert records[..|records|] == records;
  }

  /** The readiness level, from the statuses of every live record. */
  method Readiness(records: seq<Record>) returns (level: Level)
    ensures level == LevelOf(records)
  {
    var allReferenceOnly, allPending := true, true;
    for i := 0 to |records|
      invariant allReferenceOnly == AllReferenceOnly(records[..i])
      invariant allPending == AllPending(records[..i])
    {
      assert records[..i + 1] == records[..i] + [records[i]];
      allReferenceOnly := allReferenceOnly && records[i].validationStatus == "reference_only";
      allPending := allPending && records[i].approvalStatus == "pending";
    }
    assert records[..|records|] == records;
    level := if records == [] then DataInsufficient
             else if allReferenceOnly || allPending then ComparisonOnly
             else EngineeringReady;
  }

  /** Every match with its margin, and whether any has one. */
  method ScoreLoop(matches: seq<Record>, q: Requirement) returns (scored: seq<Candidate>, anyMargin: bool)
    ensures scored == Map(matches, (r: Record) => Candidate(r, Margin(r, q))) && anyMargin == AnyMargin(scored)
  {
    ghost var score := (r: Record) => Candidate(r, Margin(r, q));
    scored, anyMargin := [], false;
    for i := 0 to |matches|
      invariant |scored| == i && forall j :: 0 <= j < i ==> scored[j] == score(matches[j])
      invariant anyMargin == AnyMargin(scored)
    {
      var margin := MarginRatio(matches[i], q);
      scored := scored + [Candidate(matches[i], margin)];
      if margin.Some? { assert scored[i].margin.Some?; }
      anyMargin := anyMargin || margin.Some?;
    }
  }

  method RecommendMaterials(records: seq<Record>, q: Requirement) returns (r: Recommendation)
    ensures r.candidates == Recommended(records, q)
    ensures r.available <==> exists record :: record in records && Suits(record, q)
    ensures r.level == DataInsufficient <==> records == []
    ensures r.level == ComparisonOnly
       <==> && records != []
            && ((forall m :: m in records ==> m.validationStatus == "reference_only")
                || forall m :: m in records ==> m.approvalStatus == "pending")
  {
    var matches := MatchLoop(records, q);
    var level := Readiness(records);
    var scored, anyMargin := ScoreLoop(matches, q);
    assert scored == Scored(records, q);
    MatchesExist(records, q);
    r := Recommendation(|scored| > 0, level, if anyMargin then Sort(scored, RankLe) else scored);
  }

  lemma MatchesExist(records: seq<Record>, q: Requirement)
    ensures MatchMaterials(records, q) != [] <==> exists record :: record in records && Suits(record, q)
  {
    var p := (r: Record) => Matches(r, q);
    forall r ensures r in Filter(records, p) <==> r in records && Suits(r, q) {
      FilterMember(records, p, r);
      MatchesExactly(r, q);
    }
    if MatchMaterials(records, q) != [] {
      assert MatchMaterials(records, q)[0] in Filter(records, p);
    }
  }

  /** By falling margin, and among equal margins by id. */
  ghost predicate BestFirst(cs: seq<Candidate>) {
    forall i, j :: 0 <= i < j < |cs| ==>
      && cs[i].margin.Some? && cs[j].margin.Some?
      && (cs[i].margin.value > cs[j].margin.value
          || (cs[i].margin.value == cs[j].margin.value && StrLe(cs[i].record.id, cs[j].record.id)))
  }

  lemma SortedIsBestFirst(cs: seq<Candidate>)
    requires Sorted(cs, RankLe) && forall c :: c in cs ==> c.margin.Some?
    ensures BestFirst(cs)
  {
    forall i, j | 0 <= i < j < |cs|
      ensures cs[i].margin.Some? && cs[j].margin.Some?
      ensures || cs[i].margin.value > cs[j].margin.value
              || (cs[i].margin.value == cs[j].margin.value && StrLe(cs[i].record.id, cs[j].record.id))
    {
      assert RankLe(cs[i], cs[j]) && cs[i] in cs && cs[j] in cs;
    }
  }

  /**
   The candidates are the matching records, none lost and none twice, with their margins. When
   the requirement states a nonzero number, all margins are present and the order is by falling
   margin, then id; otherwise none is and the source order stands.
   */
  lemma RankingExact(records: seq<Record>, q: Requirement)
    ensures multiset(Recommended(records, q)) == multiset(Scored(records, q))
    ensures forall c :: c in Recommended(records, q) ==>
              && c.record in records && Suits(c.record, q)
              && c.margin == Margin(c.record, q) && (c.margin.Some? <==> HasRanking(q))
    ensures HasRanking(q) ==> BestFirst(Recommended(records, q))
    ensures if HasRanking(q) then Sorted(Recommended(records, q), RankLe)
            else Recommended(records, q) == Scored(records, q)
  {
    var scored, ranked := Scored(records, q), Recommended(records, q);
    SamePermutation(ranked, scored);
    forall c | c in scored
      ensures c.record in records && Suits(c.record, q)
      ensures c.margin == Margin(c.record, q) && (c.margin.Some? <==> HasRanking(q))
    {
      ScoredSays(records, q, c);
    }
    RankSortable();
    SortSorts(scored, RankLe);
    if HasRanking(q) { RankedBestFirst(scored, ranked); }
  }

  lemma ScoredSays(records: seq<Record>, q: Requirement, c: Candidate)
    requires c in Scored(records, q)
    ensures c.record in records && Suits(c.record, q)
    ensures c.margin == Margin(c.record, q) && (c.margin.Some? <==> HasRanking(q))
  {
    FilterMember(records, (r: Record) => Matches(r, q), c.record);
    assert c.record in MatchMaterials(records, q);
    MatchesExactly(c.record, q);
    MarginPresentExactly(c.record, q);
  }

  lemma RankedBestFirst(scored: seq<Candidate>, ranked: seq<Candidate>)
    requires (forall c :: c in scored ==> c.margin.Some?) && (forall c :: c in ranked <==> c in scored)
    requires ranked == (if AnyMargin(scored) then Sort(scored, RankLe) else scored)
    requires Sorted(Sort(scored, RankLe), RankLe)
    ensures BestFirst(ranked)
  {
    if scored != [] { assert scored[0] in scored; }
    if AnyMargin(scored) { SortedIsBestFirst(ranked); } else { assert ranked == []; }
  }

  /** With distinct ids the ranking depends on which records there are, not on their order. */
  lemma RankingIgnoresSourceOrder(records: seq<Record>, others: seq<Record>, q: Requirement)
    requires HasRanking(q)
    requires multiset(records) == multiset(others)
    requires forall i, j :: 0 <= i < j < |records| ==> records[i].id != records[j].id
    ensures Recommended(records, q) == Recommended(others, q)
  {
    var a, b := Recommended(records, q), Recommended(others, q);
    assert Sorted(a, RankLe) && Sorted(b, RankLe) by { RankingExact(records, q); RankingExact(others, q); }
    assert forall c :: c in a <==> c in b by {
      CandidatesExactly(records, q);
      CandidatesExactly(others, q);
      SamePermutation(records, others);
    }
    assert Distinct(a) && Distinct(b) by {
      DistinctPermutation(records, others);
      CandidatesDistinct(records, q);
      CandidatesDistinct(others, q);
    }
    RankDecides(records, q);
    SortedUnique(a, b, RankLe);
  }

  /** Among candidates with distinct ids, the order never ties. */
  lemma RankDecides(records: seq<Record>, q: Requirement)
    requires forall i, j :: 0 <= i < j < |records| ==> records[i].id != records[j].id
    ensures forall x, y ::
      (x in Recommended(records, q) && y in Recommended(records, q) && RankLe(x, y) && RankLe(y, x)) ==> x == y
  {
    CandidatesExactly(records, q);
    forall x, y | x in Recommended(records, q) && y in Recommended(records, q) && RankLe(x, y) && RankLe(y, x)
      ensures x == y
    {
      assert x.margin == y.margin;
      StrLeAntisymmetric(x.record.id, y.record.id);
    }
  }

  lemma CandidatesExactly(records: seq<Record>, q: Requirement)
    ensures forall c :: c in Recommended(records, q)
              <==> c.record in records && Matches(c.record, q) && c.margin == Margin(c.record, q)
  {
    RankingExact(records, q);
    SamePermutation(Recommended(records, q), Scored(records, q));
    forall c: Candidate | c.record in records && Matches(c.record, q) && c.margin == Margin(c.record, q)
      ensures c in Scored(records, q)
    {
      FilterMember(records, (r: Record) => Matches(r, q), c.record);
      var i :| 0 <= i < |MatchMaterials(records, q)| && MatchMaterials(records, q)[i] == c.record;
      assert Scored(records, q)[i] == c;
    }
  }

  lemma CandidatesDistinct(records: seq<Record>, q: Requirement)
    requires Distinct(records)
    ensures Distinct(Recommended(records, q))
  {
    FilterDistinct(records, (r: Record) => Matches(r, q));
    assert Distinct(Scored(records, q));
    RankingExact(records, q);
    DistinctPermutation(Scored(records, q), Recommended(records, q));
  }
}
