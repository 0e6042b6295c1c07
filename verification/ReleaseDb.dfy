/** The request handlers of backend/app.py on the live tables, each against its step of `ReleaseTables`. */
module ReleaseDb {
  import opened Options
  import opened Reals
  import opened Sorting
  import opened ReferenceData
  import opened ReleaseTables
  import opened VersionHistory
  import opened VersionSignature
  import opened TraceHistory
  import opened RevisionHistory

  /** A golden case as stored: its deviation and whether it passed are computed on entry. */
  datatype Golden = Golden(reference: real, program: real, tolerancePct: real, errorPct: real, passed: nat)

  datatype Certificate = Certificate(signature: Option<string>, qualityGatePassed: bool, goldenTotal: nat,
                                     goldenPassed: nat, productionReady: bool)

  datatype GateLine = GateLine(packageId: nat, valid: bool, report: seq<Error>)

  /** One calculation in a release package, with its latest revision and its data signature. */
  datatype Item = Item(calcId: nat, revisionNo: Option<nat>, revisionStatus: Option<Status>, signature: Option<string>)

  datatype Release = Release(project: nat, items: seq<Item>, approved: nat, open: nat, ready: bool)

  ghost predicate GoldenOk(g: Golden) {
    && g.reference != 0.0 && g.errorPct == DeviationPct(g.program, g.reference)
    && g.passed == if g.errorPct <= g.tolerancePct then 1 else 0
  }

  function SumPassed(gs: seq<Golden>): nat {
    if gs == [] then 0 else SumPassed(gs[..|gs| - 1]) + gs[|gs| - 1].passed
  }

  predicate WithinTolerance(g: Golden) {
    100.0 * Abs(g.program - g.reference) <= g.tolerancePct * Abs(g.reference)
  }

  lemma PassMark(g: Golden)
    requires GoldenOk(g)
    ensures g.passed == if WithinTolerance(g) then 1 else 0
  {
    ToleranceExact(g.program, g.reference, g.tolerancePct);
  }

  lemma {:induction false} AllPassed(gs: seq<Golden>)
    requires forall g :: g in gs ==> GoldenOk(g)
    ensures SumPassed(gs) <= |gs|
    ensures SumPassed(gs) == |gs| <==> forall i :: 0 <= i < |gs| ==> WithinTolerance(gs[i])
  {
    if gs != [] {
      var n := |gs| - 1;
      AllPassed(gs[..n]);
      assert gs[n] in gs;
      PassMark(gs[n]);
    }
  }

  lemma {:induction false} PassedCount(gs: seq<Golden>)
    requires forall g :: g in gs ==> GoldenOk(g)
    ensures SumPassed(gs) == |Filter(gs, WithinTolerance)|
  {
    if gs != [] {
      var front, last := gs[..|gs| - 1], gs[|gs| - 1];
      PassedCount(front);
      assert last in gs;
      PassMark(last);
      CountOneMore(front, last, WithinTolerance);
      assert gs == front + [last];
    }
  }

  lemma CountOneMore<T>(xs: seq<T>, x: T, p: T -> bool)
    ensures |Filter(xs + [x], p)| == |Filter(xs, p)| + if p(x) then 1 else 0
  {
    FilterConcat(xs, [x], p);
    assert Filter([x], p) == if p(x) then [x] else [];
  }

  /** What a release package says of a calculation: its last revision row and the signature of its own traces. */
  ghost predicate ItemOf(db: Db, c: Calc, item: Item) {
    var row := LastRow(db.revisions, c.id);
    && item.calcId == c.id
    && item.revisionNo == (if row == 0 then None else Some(db.revisions[row - 1].revisionNo))
    && item.revisionStatus == (if row == 0 then None else Some(db.revisions[row - 1].status))
    && item.signature == PrintedSignature(db, c.id)
  }

  /** `SELECT * FROM calculations WHERE project_id=? ORDER BY id` */
  ghost predicate Selected(db: Db, project: nat, rows: seq<Calc>) {
    && (forall c :: c in rows <==> c in db.calcs && c.project == Some(project))
    && forall i, j :: 0 <= i < j < |rows| ==> rows[i].id < rows[j].id
  }

  lemma ProjectSelected(db: Db, project: nat)
    requires IdsIncrease(db.calcs)
    ensures Selected(db, project, ProjectCalcs(db, project))
  {
    FilterIncreases(db.calcs, InProject(project));
    forall c ensures c in ProjectCalcs(db, project) <==> c in db.calcs && c.project == Some(project) {
      FilterMember(db.calcs, InProject(project), c);
    }
  }

  function ItemFor(db: Db, c: Calc): Item {
    var r := Latest(db.revisions, c.id);
    Item(c.id, if r.Some? then Some(r.value.revisionNo) else None, if r.Some? then Some(r.value.status) else None,
         PrintedSignature(db, c.id))
  }

  /** UPDATE data_versions SET is_active=0 WHERE dataset=d AND is_active=1 */
  function Deactivated(vs: seq<Version>, d: string): (r: seq<Version>)
    ensures |r| == |vs|
  {
    seq(|vs|, i requires 0 <= i < |vs| =>
      if vs[i].dataset == d && vs[i].isActive then vs[i].(isActive := false) else vs[i])
  }

  /** What every request keeps, whatever the order they come in. */
  ghost predicate DbOk(db: Db) {
    VersionsOk(db) && TracesReadable(db.traces) && RevisionsOk(db.revisions) && IdsIncrease(db.calcs)
  }

  lemma StepKeepsOk(db: Db, e: Event)
    requires DbOk(db)
    ensures DbOk(Step(db, e))
  {
    StepKeepsVersions(db, e);
    StepKeepsReadable(db, e);
    StepKeepsRevisions(db, e);
    StepKeepsIncrease(db, e);
  }

  lemma {:induction false} ReachableOk(es: seq<Event>)
    ensures DbOk(Run(EMPTY, es))
  {
    if es != [] {
      var n := |es| - 1;
      ReachableOk(es[..n]);
      StepKeepsOk(Run(EMPTY, es[..n]), es[n]);
      RunConcat(EMPTY, es[..n], [es[n]]);
      assert es == es[..n] + [es[n]];
      var db := Run(EMPTY, es[..n]);
      assert [es[n]][1..] == [] && Run(db, [es[n]]) == Step(db, es[n]);
    }
  }

  lemma ItemForMeans(db: Db, c: Calc)
    requires RevNumbered(db.revisions)
    ensures ItemOf(db, c, ItemFor(db, c))
    ensures ApprovedItem(ItemFor(db, c)) <==> ApprovedLatest(db.revisions, c.id)
  {
    LatestIsLast(db.revisions, c.id);
  }

  predicate ApprovedItem(item: Item) {
    item.revisionStatus == Some(Approved)
  }

  /** The loop of `project_release_package` over the project's calculations. */
  method Summarise(db: Db, rows: seq<Calc>) returns (items: seq<Item>, approved: nat, open: nat)
    requires RevNumbered(db.revisions)
    ensures |items| == |rows| && forall i :: 0 <= i < |rows| ==> ItemOf(db, rows[i], items[i])
    ensures approved == |Filter(items, ApprovedItem)| && approved + open == |rows|
    ensures approved == |rows| <==> forall i :: 0 <= i < |rows| ==> ApprovedLatest(db.revisions, rows[i].id)
  {
    ghost var itemFor := (c: Calc) => ItemFor(db, c);
    items, approved, open := [], 0, 0;
    for i := 0 to |rows|
      invariant |items| == i && forall j :: 0 <= j < i ==> items[j] == itemFor(rows[j])
      invariant approved == |Filter(items, ApprovedItem)| && approved + open == i
    {
      var item := ItemFor(db, rows[i]);
      assert item == itemFor(rows[i]);
      assert |Filter(items + [item], ApprovedItem)| == approved + if ApprovedItem(item) then 1 else 0 by {
        CountOneMore(items, item, ApprovedItem);
      }
      if item.revisionStatus == Some(Approved) {
        approved := approved + 1;
      } else {
        open := open + 1;
      }
      items := items + [item];
    }
    ItemsMean(db, rows, items);
  }

  /** What a selection holds, and that it leaves something out exactly when some row fails the test. */
  lemma {:induction false} FilterCount<T(!new)>(xs: seq<T>, p: T -> bool)
    ensures forall x :: x in Filter(xs, p) <==> x in xs && p(x)
    ensures |Filter(xs, p)| <= |xs|
    ensures |Filter(xs, p)| == |xs| <==> forall x :: x in xs ==> p(x)
  {
    if xs != [] {
      FilterCount(xs[1..], p);
      assert forall x :: x in xs <==> x == xs[0] || x in xs[1..];
    }
  }

  lemma ItemsMean(db: Db, rows: seq<Calc>, items: seq<Item>)
    requires RevNumbered(db.revisions)
    requires |items| == |rows| && forall j :: 0 <= j < |rows| ==> items[j] == ItemFor(db, rows[j])
    ensures forall i :: 0 <= i < |rows| ==> ItemOf(db, rows[i], items[i])
    ensures |Filter(items, ApprovedItem)| == |rows|
       <==> forall i :: 0 <= i < |rows| ==> ApprovedLatest(db.revisions, rows[i].id)
  {
    forall i | 0 <= i < |rows|
      ensures ItemOf(db, rows[i], items[i])
      ensures ApprovedItem(items[i]) <==> ApprovedLatest(db.revisions, rows[i].id)
    {
      ItemForMeans(db, rows[i]);
    }
    FilterCount(items, ApprovedItem);
    assert forall i :: 0 <= i < |items| ==> items[i] in items;
  }

  ghost predicate AllValid(ps: seq<Package>) {
    forall i :: 0 <= i < |ps| ==> ValidContent(ps[i].dataset, ps[i].content)
  }

  /** The first hundred findings on a package's records. */
  ghost predicate Reports(p: Package, report: seq<Error>) {
    p.content.Records? ==>
      var full := FullReport(SchemaFor(p.dataset), p.content.rows);
      report <= full && |report| == if |full| <= 100 then |full| else 100
  }

  method CheckContent(p: Package) returns (valid: bool, report: seq<Error>)
    ensures valid <==> ValidContent(p.dataset, p.content)
    ensures Reports(p, report)
  {
    valid, report := false, [];
    if p.content.Records? {
      valid, report := ValidatePackageRecords(SchemaFor(p.dataset), p.content.rows);
    }
  }

  predicate PassedLine(line: GateLine) {
    line.valid
  }

  /** `quality_gate`: one line per package, newest first, and how many passed and failed. */
  method QualityGate(ps: seq<Package>) returns (lines: seq<GateLine>, passed: nat, failed: nat)
    ensures |lines| == passed + failed == |ps|
    ensures forall i :: 0 <= i < |ps| ==> lines[i].packageId == |ps| - i
    ensures forall i :: 0 <= i < |ps| ==>
      (lines[i].valid <==> ValidContent(ps[|ps| - 1 - i].dataset, ps[|ps| - 1 - i].content))
    ensures forall i :: 0 <= i < |ps| ==> Reports(ps[|ps| - 1 - i], lines[i].report)
    ensures passed == |Filter(lines, PassedLine)|
    ensures failed == 0 <==> AllValid(ps)
  {
    lines, passed, failed := [], 0, 0;
    for i := |ps| downto 0
      invariant |lines| == passed + failed == |ps| - i
      invariant forall j :: 0 <= j < |lines| ==> lines[j].packageId == |ps| - j
      invariant forall j :: 0 <= j < |lines| ==>
        (lines[j].valid <==> ValidContent(ps[|ps| - 1 - j].dataset, ps[|ps| - 1 - j].content))
      invariant forall j :: 0 <= j < |lines| ==> Reports(ps[|ps| - 1 - j], lines[j].report)
      invariant passed == |Filter(lines, PassedLine)|
      invariant failed == 0 <==> AllValid(ps[i..])
    {
      var valid, report := CheckContent(ps[i]);
      assert ps[i..] == [ps[i]] + ps[i + 1..];
      if valid {
        passed := passed + 1;
      } else {
        failed := failed + 1;
      }
      CountOneMore(lines, GateLine(i + 1, valid, report), PassedLine);
      lines := lines + [GateLine(i + 1, valid, report)];
    }
    assert ps[0..] == ps;
  }

  /** The gate of `create_release_certificate`: stop at the first package that fails. */
  method GatePasses(ps: seq<Package>) returns (ok: bool)
    ensures ok <==> AllValid(ps)
  {
    ok := true;
    for i := 0 to |ps|
      invariant ok && forall j :: 0 <= j < i ==> ValidContent(ps[j].dataset, ps[j].content)
    {
      var valid, _ := CheckContent(ps[i]);
      if !valid {
        ok := false;
        break;
      }
    }
  }

  /** The loop of `add`: one trace row for each active version. */
  method ActiveTraces(versions: seq<Version>, cid: nat) returns (rows: seq<Trace>)
    ensures rows == TracesOf(versions, cid) && CopiesActive(versions, cid, rows)
  {
    TracesCopyActive(versions, cid);
    rows := [];
    for i := 0 to |versions|
      invariant rows == TracesOf(versions[..i], cid)
    {
      var v := versions[i];
      assert versions[..i + 1][..i] == versions[..i];
      if v.isActive {
        rows := rows + [Trace(cid, v.dataset, i + 1, v.versionNo, v.packageId)];
      }
    }
    assert versions[..|versions|] == versions;
  }

  /** Row `k` is active, alone in its dataset; nothing else has changed. */
  ghost predicate OnlyActive(before: seq<Version>, after: seq<Version>, k: int) {
    && |after| == |before| && 0 <= k < |before|
    && forall i :: 0 <= i < |before| ==> after[i] == before[i].(
                     isActive := if before[i].dataset == before[k].dataset then i == k else before[i].isActive)
  }

  /** Switching the dataset's rows off and one of them on. */
  lemma SwitchedOver(vs: seq<Version>, k: nat)
    requires k < |vs|
    ensures var after := Deactivated(vs, vs[k].dataset);
      && after[k := after[k].(isActive := true)] == SetActive(vs, k)
      && OnlyActive(vs, SetActive(vs, k), k)
  {
    var after := Deactivated(vs, vs[k].dataset);
    forall i | 0 <= i < |vs| ensures after[k := after[k].(isActive := true)][i] == SetActive(vs, k)[i] {}
  }

  /** `ORDER BY id DESC LIMIT 1` among the earlier versions of the dataset. */
  ghost predicate LastBefore(vs: seq<Version>, k: int, vid: nat)
    requires 1 <= vid <= |vs|
  {
    && 0 <= k < vid - 1 && vs[k].dataset == vs[vid - 1].dataset
    && forall i :: k < i < vid - 1 ==> vs[i].dataset != vs[vid - 1].dataset
  }

  lemma {:induction false} LastGoodIsLast(vs: seq<Version>, n: nat, d: string)
    requires n <= |vs| && forall i :: 0 <= i < |vs| ==> vs[i].confidence == 4
    ensures var from := if LastGood(vs, n, d).None? then 0 else LastGood(vs, n, d).value + 1;
      forall i :: from <= i < n ==> vs[i].dataset != d
  {
    if n > 0 && vs[n - 1].dataset != d { LastGoodIsLast(vs, n - 1, d); }
  }

  /** One trace row for each active version, in id order. */
  ghost predicate CopiesActive(vs: seq<Version>, cid: nat, rows: seq<Trace>) {
    && (forall i, j :: 0 <= i < j < |rows| ==> rows[i].versionId < rows[j].versionId)
    && (forall t :: t in rows <==>
          && t.calcId == cid && 1 <= t.versionId <= |vs| && vs[t.versionId - 1].isActive
          && t.dataset == vs[t.versionId - 1].dataset && t.versionNo == vs[t.versionId - 1].versionNo
          && t.packageId == vs[t.versionId - 1].packageId)
  }

  lemma {:induction false} TracesCopyActive(vs: seq<Version>, cid: nat)
    ensures CopiesActive(vs, cid, TracesOf(vs, cid))
  {
    if vs != [] {
      var n := |vs| - 1;
      TracesCopyActive(vs[..n], cid);
      var front, last := TracesOf(vs[..n], cid), Trace(cid, vs[n].dataset, n + 1, vs[n].versionNo, vs[n].packageId);
      assert TracesOf(vs, cid) == if vs[n].isActive then front + [last] else front;
      forall i | 0 <= i < |front| ensures front[i].versionId <= n { assert front[i] in front; }
    }
  }

  /** The stored release: the project's calculations, each as it stands, the two counts and the verdict. */
  ghost predicate Releases(db: Db, project: nat, release: Release) {
    var rows := ProjectCalcs(db, project);
    && Selected(db, project, rows)
    && release.project == project && |release.items| == |rows|
    && (forall i :: 0 <= i < |rows| ==> ItemOf(db, rows[i], release.items[i]))
    && release.approved == |Filter(release.items, ApprovedItem)|
    && release.approved + release.open == |release.items|
    && (release.ready <==> Ready(db, project))
  }

  class ReleaseDb {
    var packages: seq<Package>
    var versions: seq<Version>
    var projects: seq<nat>
    var calcs: seq<Calc>
    var pending: seq<nat>
    var traces: seq<Trace>
    var revisions: seq<Revision>
    var goldens: seq<Golden>
    var certificates: seq<Certificate>
    var releases: seq<Release>

    function View(): Db
      reads this
    {
      Db(packages, versions, projects, calcs, pending, traces, revisions)
    }

    ghost predicate Valid()
      reads this
    {
      DbOk(View()) && forall g :: g in goldens ==> GoldenOk(g)
    }

    constructor ()
      ensures Valid() && View() == EMPTY && goldens == [] && certificates == [] && releases == []
    {
      packages, versions, projects, calcs, pending := [], [], [], [], [];
      traces, revisions, goldens, certificates, releases := [], [], [], [], [];
    }

    method CreateDataPackage(dataset: string, hash: string, content: Content, confidence: nat) returns (code: nat)
      requires Valid()
      modifies this`packages
      ensures Valid() && Reply(View(), code) == CreatePackage(old(View()), dataset, hash, content, confidence)
      ensures code == 200 <==>
        && 1 <= confidence <= 4 && dataset in DATASETS && content.Records? && |content.rows| <= 50000
        && forall p :: p in old(packages) ==> p.hash != hash
      ensures code in {200, 400, 422, 500} && (code == 422 <==> !(1 <= confidence <= 4))
      ensures code == 500 <==> 1 <= confidence <= 4 && dataset in DATASETS && content.Lengthless?
      ensures packages == if code != 200 then old(packages)
                          else old(packages) + [Package(dataset, hash, content, confidence, Draft)]
    {
      StepKeepsOk(View(), CreatePackageE(dataset, hash, content, confidence));
      if !(1 <= confidence <= 4) {
        return 422;
      }
      if dataset !in DATASETS || content.Unparsable? {
        return 400;
      }
      if content.Lengthless? {
        return 500;
      }
      if |content.rows| > 50000 {
        return 400;
      }
      if exists i :: 0 <= i < |packages| && packages[i].hash == hash {
        return 400;
      }
      packages := packages + [Package(dataset, hash, content, confidence, Draft)];
      code := 200;
    }

    method SetDataPackageStatus(pid: nat, status: Option<Status>) returns (code: nat)
      requires Valid()
      modifies this`packages, this`versions
      ensures Valid() && Reply(View(), code) == SetPackageStatus(old(View()), pid, status)
      ensures code == 200 <==>
        && status.Some? && 1 <= pid <= |packages|
        && (status.value == Approved ==> old(packages[pid - 1]).confidence >= 4)
      ensures code in {200, 400, 404} && (code == 404 <==> status.Some? && !(1 <= pid <= |packages|))
      ensures packages == if code != 200 then old(packages)
                          else old(packages)[pid - 1 := old(packages[pid - 1]).(status := status.value)]
      ensures code != 200 || status.value != Approved ==> versions == old(versions)
      ensures code == 200 && status.value == Approved ==>
        var p := old(packages[pid - 1]);
        versions == old(versions)
                    + [Version(p.dataset, VersionName(CountOf(old(versions), p.dataset) + 1), pid, p.confidence, false)]
    {
      StepKeepsOk(View(), SetPackageStatusE(pid, status));
      if status == Some(Approved) && 1 <= pid <= |packages| { MintAppends(versions, packages[pid - 1], pid); }
      if status.None? {
        return 400;
      }
      if !(1 <= pid <= |packages|) {
        return 404;
      }
      var row := packages[pid - 1];
      if status.value == Approved && row.confidence < 4 {
        return 400;
      }
      packages := packages[pid - 1 := row.(status := status.value)];
      if status.value == Approved {
        var existing := CountOf(versions, row.dataset);
        var version := Version(row.dataset, VersionName(existing + 1), pid, row.confidence, false);
        versions := InsertOrIgnore(versions, version);
      }
      code := 200;
    }

    method Activate(vid: nat) returns (code: nat)
      requires Valid()
      modifies this`versions
      ensures Valid() && Reply(View(), code) == ActivateVersion(old(View()), vid)
      ensures code == 404 <==> !(1 <= vid <= |versions|)
      ensures code != 404 ==>
        var p := packages[old(versions[vid - 1]).packageId - 1];
        code == if p.status == Approved && p.confidence >= 4 then 200 else 400
      ensures if code == 200 then OnlyActive(old(versions), versions, vid - 1) else versions == old(versions)
    {
      StepKeepsOk(View(), ActivateVersionE(vid));
      if !(1 <= vid <= |versions|) {
        return 404;
      }
      var r := versions[vid - 1];
      if !(1 <= r.packageId <= |packages|) || packages[r.packageId - 1].status != Approved
         || packages[r.packageId - 1].confidence < 4 {
        return 400;
      }
      SwitchedOver(versions, vid - 1);
      versions := Deactivated(versions, r.dataset);
      versions := versions[vid - 1 := versions[vid - 1].(isActive := true)];
      code := 200;
    }

    method Rollback(vid: nat) returns (code: nat)
      requires Valid()
      modifies this`versions
      ensures Valid() && Reply(View(), code) == RollbackVersion(old(View()), vid)
      ensures code == 404 <==> !(1 <= vid <= |versions|)
      ensures code == 200 ==> exists k :: LastBefore(old(versions), k, vid) && OnlyActive(old(versions), versions, k)
      ensures code == 400 ==>
        && versions == old(versions)
        && forall i :: 0 <= i < vid - 1 ==> versions[i].dataset != versions[vid - 1].dataset
      ensures code in {200, 400, 404} && (code == 404 ==> versions == old(versions))
    {
      StepKeepsOk(View(), RollbackVersionE(vid));
      if !(1 <= vid <= |versions|) {
        return 404;
      }
      var r := versions[vid - 1];
      var p := LastGood(versions, vid - 1, r.dataset);
      LastGoodIsLast(versions, vid - 1, r.dataset);
      if p.None? {
        return 400;
      }
      SwitchedOver(versions, p.value);
      versions := Deactivated(versions, r.dataset);
      versions := versions[p.value := versions[p.value].(isActive := true)];
      assert LastBefore(old(versions), p.value, vid);
      code := 200;
    }

    method NewProject(user: nat, role: Role) returns (code: nat)
      requires Valid()
      modifies this`projects
      ensures Valid() && Reply(View(), code) == CreateProject(old(View()), user, role)
      ensures code == (if role == Viewer then 403 else 200)
      ensures projects == if code == 200 then old(projects) + [user] else old(projects)
    {
      StepKeepsOk(View(), CreateProjectE(user, role));
      if role == Viewer {
        return 403;
      }
      projects := projects + [user];
      code := 200;
    }

    /** `add` up to its first commit. */
    method Add(user: nat, role: Role, project: Option<nat>, inputs: string) returns (code: nat)
      requires Valid()
      modifies this`calcs, this`pending
      ensures Valid() && Reply(View(), code) == AddCalc(old(View()), user, role, project, inputs)
      ensures code == 403 <==> role == Viewer
      ensures code == 404 <==>
        && role != Viewer && project.Some?
        && !(1 <= project.value <= |projects| && projects[project.value - 1] == user)
      ensures code in {200, 403, 404}
      ensures code != 200 ==> calcs == old(calcs) && pending == old(pending)
      ensures code == 200 ==> |calcs| == |old(calcs)| + 1 && old(calcs) <= calcs
      ensures code == 200 ==>
        var c := calcs[|calcs| - 1];
        && c == Calc(c.id, user, project, inputs) && (forall d :: d in old(calcs) ==> d.id < c.id)
        && (if old(calcs) == [] then c.id == 1 else exists d :: d in old(calcs) && d.id + 1 == c.id)
        && pending == old(pending) + [c.id]
    {
      StepKeepsOk(View(), AddCalcE(user, role, project, inputs));
      if role == Viewer {
        return 403;
      }
      if project.Some? && !OwnsProject(View(), user, project.value) {
        return 404;
      }
      var id := NextId(calcs);
      calcs := calcs + [Calc(id, user, project, inputs)];
      pending := pending + [id];
      code := 200;
    }

    /** The rest of `add`: one trace row for each version active now. */
    method AddTraces(k: nat) returns (code: nat)
      requires Valid()
      modifies this`traces, this`pending
      ensures Valid() && Reply(View(), code) == WriteTrace(old(View()), k)
      ensures code == (if k < |old(pending)| then 200 else 404)
      ensures code == 404 ==> traces == old(traces) && pending == old(pending)
      ensures code == 200 ==>
        && pending == old(pending)[..k] + old(pending)[k + 1..]
        && old(traces) <= traces && CopiesActive(versions, old(pending)[k], traces[|old(traces)|..])
    {
      StepKeepsOk(View(), WriteTraceE(k));
      if k >= |pending| {
        return 404;
      }
      var cid := pending[k];
      var rows := ActiveTraces(versions, cid);
      assert (traces + rows)[|traces|..] == rows;
      traces := traces + rows;
      pending := pending[..k] + pending[k + 1..];
      code := 200;
    }

    method Delete(user: nat, role: Role, cid: nat) returns (code: nat)
      requires Valid()
      modifies this`calcs
      ensures Valid() && Reply(View(), code) == DeleteCalc(old(View()), user, role, cid)
      ensures code == 200 <==> role != Viewer && exists c :: c in old(calcs) && c.id == cid && c.owner == user
      ensures code in {200, 403, 404} && (code == 403 <==> role == Viewer)
      ensures forall c :: c in calcs <==> c in old(calcs) && !(code == 200 && c.id == cid && c.owner == user)
    {
      FilterCount(calcs, (c: Calc) => !(c.id == cid && c.owner == user));
      StepKeepsOk(View(), DeleteCalcE(user, role, cid));
      if role == Viewer {
        return 403;
      }
      var before := |calcs|;
      var kept := Filter(calcs, (c: Calc) => !(c.id == cid && c.owner == user));
      if |kept| == before {
        return 404;
      }
      calcs := kept;
      code := 200;
    }

    method Clear(user: nat, role: Role) returns (code: nat)
      requires Valid()
      modifies this`calcs
      ensures Valid() && Reply(View(), code) == ClearCalcs(old(View()), user, role)
      ensures code == (if role == Viewer then 403 else 200)
      ensures forall c :: c in calcs <==> c in old(calcs) && !(code == 200 && c.owner == user)
    {
      FilterCount(calcs, (c: Calc) => c.owner != user);
      StepKeepsOk(View(), ClearCalcsE(user, role));
      if role == Viewer {
        return 403;
      }
      calcs := Filter(calcs, (c: Calc) => c.owner != user);
      code := 200;
    }

    method NewRevision(user: nat, cid: nat) returns (code: nat)
      requires Valid()
      modifies this`revisions
      ensures Valid() && Reply(View(), code) == CreateRevision(old(View()), user, cid)
      ensures code == 200 <==>
        && (forall r :: r in old(revisions) && r.calcId == cid ==> !r.locked)
        && exists c :: c in calcs && c.id == cid && c.owner == user
      ensures code in {200, 400, 404} && (code == 404 <==> !exists c :: c in calcs && c.id == cid && c.owner == user)
      ensures code != 200 ==> revisions == old(revisions)
      ensures code == 200 ==> |revisions| == |old(revisions)| + 1 && old(revisions) <= revisions
      ensures code == 200 ==>
        var r := revisions[|revisions| - 1];
        && r == Revision(cid, RevCount(old(revisions), cid) + 1, r.snapshot, Draft, false, user, None)
        && r.snapshot in calcs && r.snapshot.id == cid
    {
      StepKeepsOk(View(), CreateRevisionE(user, cid));
      LatestIsLast(revisions, cid);
      var row := FindCalc(calcs, cid);
      if row.None? || row.value.owner != user {
        return 404;
      }
      if Locked(revisions, cid) {
        return 400;
      }
      var highest := Latest(revisions, cid);
      var number := 1;
      if highest.Some? {
        number := highest.value.revisionNo + 1;
      }
      revisions := revisions + [Revision(cid, number, row.value, Draft, false, user, None)];
      code := 200;
    }

    method Submit(user: nat, rid: nat) returns (code: nat)
      requires Valid()
      modifies this`revisions
      ensures Valid() && Reply(View(), code) == SubmitRevision(old(View()), user, rid)
      ensures code == 200 <==>
        && 1 <= rid <= |revisions| && old(revisions[rid - 1]).status == Draft
        && exists c :: c in calcs && c.id == old(revisions[rid - 1]).calcId && c.owner == user
      ensures code in {200, 400, 404}
      ensures code == 404 <==>
        || !(1 <= rid <= |revisions|)
        || !exists c :: c in calcs && c.id == old(revisions[rid - 1]).calcId && c.owner == user
      ensures revisions == if code != 200 then old(revisions)
                           else old(revisions)[rid - 1 := old(revisions[rid - 1]).(status := Review)]
    {
      StepKeepsOk(View(), SubmitRevisionE(user, rid));
      if !(1 <= rid <= |revisions|) {
        return 404;
      }
      var r := revisions[rid - 1];
      var row := FindCalc(calcs, r.calcId);
      if row.None? || row.value.owner != user {
        return 404;
      }
      if r.status != Draft {
        return 400;
      }
      revisions := revisions[rid - 1 := r.(status := Review)];
      code := 200;
    }

    method Approve(user: nat, role: Role, rid: nat) returns (code: nat)
      requires Valid()
      modifies this`revisions
      ensures Valid() && Reply(View(), code) == ApproveRevision(old(View()), user, role, rid)
      ensures code == 200 <==> role != Viewer && 1 <= rid <= |revisions| && revisions[rid - 1].createdBy != user
      ensures code in {200, 400, 403, 404} && (code == 403 <==> role == Viewer)
      ensures code == 404 <==> role != Viewer && !(1 <= rid <= |revisions|)
      ensures revisions == if code != 200 then old(revisions) else old(revisions)[rid - 1 :=
                old(revisions[rid - 1]).(status := Approved, locked := true, reviewedBy := Some(user))]
    {
      StepKeepsOk(View(), ApproveRevisionE(user, role, rid));
      if role == Viewer {
        return 403;
      }
      if !(1 <= rid <= |revisions|) {
        return 404;
      }
      var r := revisions[rid - 1];
      if r.createdBy == user {
        return 400;
      }
      revisions := revisions[rid - 1 := r.(status := Approved, locked := true, reviewedBy := Some(user))];
      code := 200;
    }

    method Reject(user: nat, role: Role, rid: nat) returns (code: nat)
      requires Valid()
      modifies this`revisions
      ensures Valid() && Reply(View(), code) == RejectRevision(old(View()), user, role, rid)
      ensures code == 200 <==> role != Viewer && 1 <= rid <= |revisions| && revisions[rid - 1].createdBy != user
      ensures code in {200, 400, 403, 404} && (code == 403 <==> role == Viewer)
      ensures code == 404 <==> role != Viewer && !(1 <= rid <= |revisions|)
      ensures revisions == if code != 200 then old(revisions)
                           else old(revisions)[rid - 1 :=
                                  old(revisions[rid - 1]).(status := Rejected, reviewedBy := Some(user))]
    {
      StepKeepsOk(View(), RejectRevisionE(user, role, rid));
      if role == Viewer {
        return 403;
      }
      if !(1 <= rid <= |revisions|) {
        return 404;
      }
      var r := revisions[rid - 1];
      if r.createdBy == user {
        return 400;
      }
      revisions := revisions[rid - 1 := r.(status := Rejected, reviewedBy := Some(user))];
      code := 200;
    }

    /** `project_release_package`: the items of the project, the two counts, and the verdict. */
    method ReleasePackage(user: nat, project: nat) returns (code: nat)
      requires Valid()
      modifies this`releases
      ensures Valid() && View() == old(View())
      ensures code == if 1 <= project <= |projects| && projects[project - 1] == user then 200 else 404
      ensures code == 404 ==> releases == old(releases)
      ensures code == 200 ==>
        && |releases| == |old(releases)| + 1 && old(releases) <= releases
        && Releases(View(), project, releases[|old(releases)|])
    {
      if !OwnsProject(View(), user, project) {
        return 404;
      }
      var items, approved, open := Summarise(View(), ProjectCalcs(View(), project));
      ProjectRows(View(), project);
      ProjectSelected(View(), project);
      var total := |items|;
      var release := Release(project, items, approved, open, total > 0 && approved == total);
      releases := releases + [release];
      code := 200;
    }

    method CreateGoldenCase(reference: real, program: real, tolerancePct: real) returns (code: nat)
      requires Valid()
      modifies this`goldens
      ensures Valid() && View() == old(View())
      ensures code == if tolerancePct < 0.0 then 422 else if reference == 0.0 then 400 else 200
      ensures code != 200 ==> goldens == old(goldens)
      ensures code == 200 ==> |goldens| == |old(goldens)| + 1 && old(goldens) <= goldens
      ensures code == 200 ==>
        var g := goldens[|goldens| - 1];
        && g.reference == reference && g.program == program && g.tolerancePct == tolerancePct
        && (g.passed == 1 <==> WithinTolerance(g))
    {
      if tolerancePct < 0.0 {
        return 422;
      }
      if reference == 0.0 {
        return 400;
      }
      var err := DeviationPct(program, reference);
      var passed := if err <= tolerancePct then 1 else 0;
      ToleranceExact(program, reference, tolerancePct);
      goldens := goldens + [Golden(reference, program, tolerancePct, err, passed)];
      code := 200;
    }

    /**
     `create_release_certificate`: production-ready exactly when every package is valid, every
     dataset has an active version, and there is a golden case and each is within its tolerance.
     */
    method CreateReleaseCertificate() returns (certificate: Certificate)
      requires Valid()
      modifies this`certificates
      ensures Valid() && View() == old(View())
      ensures certificates == old(certificates) + [certificate]
      ensures certificate.signature == CertificateSignature(View())
      ensures certificate.qualityGatePassed <==> AllValid(packages)
      ensures certificate.goldenTotal == |goldens| && certificate.goldenPassed == |Filter(goldens, WithinTolerance)|
      ensures certificate.productionReady <==>
        && AllValid(packages) && Covered(versions) && goldens != []
        && forall i :: 0 <= i < |goldens| ==> WithinTolerance(goldens[i])
    {
      var active := ActivePairs(versions);
      var qgOk := GatePasses(packages);
      var total, passed := |goldens|, SumPassed(goldens);
      var covered := forall d :: d in DATASETS ==> d in Keys(active);
      CoveredByPairs(View());
      AllPassed(goldens);
      PassedCount(goldens);
      var ready := qgOk && covered && total > 0 && total == passed;
      certificate := Certificate(SignatureOf(active), qgOk, total, passed, ready);
      certificates := certificates + [certificate];
    }
  }

  /** An item for the id, in a release after the run `fs` that follows a write under the id after `es`. */
  ghost predicate FaithfulItem(added: Db, cid: nat, es: seq<Event>, k: nat, fs: seq<Event>, c: Calc, item: Item) {
    var atWrite := Run(added, es);
    Survives(added, es, cid) && k < |atWrite.pending| && atWrite.pending[k] == cid
    && Survives(WriteTrace(atWrite, k).db, fs, cid)
    && c.id == cid && ItemOf(Run(WriteTrace(atWrite, k).db, fs), c, item) ==>
      item.signature == CertificateSignature(atWrite)
  }

  ghost predicate ReleasesFaithfully(added: Db, cid: nat) {
    forall es, k: nat, fs, c, item :: FaithfulItem(added, cid, es, k, fs, c, item)
  }

  /**
   The release items of a calculation just added always carry the signature active when a trace
   was read for it, exactly when its id has no trace rows and no other unfinished `add` holds it.
   */
  lemma ReleaseIsFaithfulExactly(db: Db, add: Event)
    requires DbOk(db) && add.AddCalcE? && Handle(db, add).code == 200
    ensures ReleasesFaithfully(Step(db, add), NextId(db.calcs))
       <==> TracePairs(db.traces, NextId(db.calcs)) == [] && NextId(db.calcs) !in db.pending
  {
    var added, cid := Step(db, add), NextId(db.calcs);
    AddIsFaithfulExactly(db, add);
    if ReleasesFaithfully(added, cid) {
      forall es, k: nat, fs ensures FaithfulWrite(added, cid, es, k, fs) { ItemTellsWrite(added, cid, es, k, fs); }
    }
    if AlwaysFaithful(added, cid) {
      forall es, k: nat, fs, c, item ensures FaithfulItem(added, cid, es, k, fs, c, item) {
        assert FaithfulWrite(added, cid, es, k, fs);
      }
    }
  }

  lemma ItemTellsWrite(added: Db, cid: nat, es: seq<Event>, k: nat, fs: seq<Event>)
    requires ReleasesFaithfully(added, cid)
    ensures FaithfulWrite(added, cid, es, k, fs)
  {
    var later := Run(WriteTrace(Run(added, es), k).db, fs);
    var c, row := Calc(cid, 0, None, ""), LastRow(later.revisions, cid);
    var item := Item(cid, if row == 0 then None else Some(later.revisions[row - 1].revisionNo),
                     if row == 0 then None else Some(later.revisions[row - 1].status), PrintedSignature(later, cid));
    assert ItemOf(later, c, item);
    assert FaithfulItem(added, cid, es, k, fs, c, item);
  }

  /** Without deletions that holds of every item of every release, from the first request on. */
  lemma ReleaseHistoryIsFaithful(es: seq<Event>, k: nat, fs: seq<Event>, c: Calc, item: Item)
    requires (forall e :: e in es ==> !Deletes(e)) && forall e :: e in fs ==> !Deletes(e)
    requires k < |Run(EMPTY, es).pending| && c.id == Run(EMPTY, es).pending[k]
    requires ItemOf(Run(WriteTrace(Run(EMPTY, es), k).db, fs), c, item)
    ensures item.signature == CertificateSignature(Run(EMPTY, es))
  {
    HistoryIsFaithful(es, k, fs);
  }

  /** `SELECT * FROM calculations WHERE project_id=? ORDER BY id` finds the project's calculations. */
  lemma ProjectRows(db: Db, p: nat)
    ensures Ready(db, p) <==>
      var rows := ProjectCalcs(db, p);
      rows != [] && forall i :: 0 <= i < |rows| ==> ApprovedLatest(db.revisions, rows[i].id)
  {
    var rows := ProjectCalcs(db, p);
    forall c ensures c in rows <==> c in db.calcs && c.project == Some(p) {
      FilterMember(db.calcs, InProject(p), c);
    }
    if rows != [] { assert rows[0] in rows; }
    forall i | 0 <= i < |rows| ensures rows[i] in rows {}
  }

  /** The set of active datasets contains the four required ones exactly when each has a current version. */
  lemma CoveredByPairs(db: Db)
    requires VersionsOk(db)
    ensures Covered(db.versions) <==> forall d :: d in DATASETS ==> d in Keys(ActivePairs(db.versions))
  {
    var pairs := ActivePairs(db.versions);
    forall d | d in DATASETS ensures Current(db.versions, d) != 0 <==> d in Keys(pairs) {
      if d in Keys(pairs) {
        var i :| 0 <= i < |pairs| && Keys(pairs)[i] == d;
        ActivePairsAreMap(db, pairs[i]);
      }
      if Current(db.versions, d) != 0 {
        var p := (d, VersionName(Current(db.versions, d)));
        ActivePairsAreMap(db, p);
        var i :| 0 <= i < |pairs| && pairs[i] == p;
        assert Keys(pairs)[i] == d;
      }
    }
  }
}
