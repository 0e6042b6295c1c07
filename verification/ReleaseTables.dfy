/**
 The release-control tables of backend/app.py, and what each request does to them as one
 atomic step. Rows that are never deleted have their position plus one as id; calculations
 can be deleted, so they carry theirs, and a new one gets the largest id in use plus one.
 */
module ReleaseTables {
  import opened Options
  import opened Sorting
  import opened Text
  import opened ReferenceData

  datatype Status = Draft | Review | Approved | Rejected

  datatype Role = Admin | Engineer | Viewer

  datatype Package = Package(dataset: string, hash: string, content: Content, confidence: nat, status: Status)

  datatype Version = Version(dataset: string, versionNo: string, packageId: nat, confidence: nat, isActive: bool)

  datatype Calc = Calc(id: nat, owner: nat, project: Option<nat>, inputs: string)

  datatype Trace = Trace(calcId: nat, dataset: string, versionId: nat, versionNo: string, packageId: nat)

  datatype Revision = Revision(calcId: nat, revisionNo: nat, snapshot: Calc, status: Status, locked: bool,
                               createdBy: nat, reviewedBy: Option<nat>)

  /** `pending` holds the calculations inserted by requests that have yet to write their traces. */
  datatype Db = Db(packages: seq<Package>, versions: seq<Version>, projects: seq<nat>, calcs: seq<Calc>,
                   pending: seq<nat>, traces: seq<Trace>, revisions: seq<Revision>)

  const EMPTY := Db([], [], [], [], [], [], [])

  /** The tables after a request, and its HTTP status. */
  datatype Reply = Reply(db: Db, code: nat)

  // ------------------------------------------------------------- reference data

  function CreatePackage(db: Db, dataset: string, hash: string, content: Content, confidence: nat): Reply {
    if !(1 <= confidence <= 4) then Reply(db, 422)
    else if dataset !in DATASETS || content.Unparsable? then Reply(db, 400)
    else if content.Lengthless? then Reply(db, 500)
    else if |content.rows| > 50000 then Reply(db, 400)
    else if exists i :: 0 <= i < |db.packages| && db.packages[i].hash == hash then Reply(db, 400)
    else Reply(db.(packages := db.packages + [Package(dataset, hash, content, confidence, Draft)]), 200)
  }

  function VersionName(n: nat): string {
    "v" + NatToString(n)
  }

  /** The number of versions of a dataset. */
  function CountOf(vs: seq<Version>, d: string): nat {
    if vs == [] then 0
    else CountOf(vs[..|vs| - 1], d) + if vs[|vs| - 1].dataset == d then 1 else 0
  }

  /** INSERT OR IGNORE under UNIQUE(dataset, version_no). */
  function InsertOrIgnore(vs: seq<Version>, v: Version): seq<Version> {
    if exists i :: 0 <= i < |vs| && vs[i].dataset == v.dataset && vs[i].versionNo == v.versionNo then vs
    else vs + [v]
  }

  function Mint(vs: seq<Version>, p: Package, pid: nat): seq<Version> {
    InsertOrIgnore(vs, Version(p.dataset, VersionName(CountOf(vs, p.dataset) + 1), pid, p.confidence, false))
  }

  function SetPackageStatus(db: Db, pid: nat, status: Option<Status>): Reply {
    if status.None? then Reply(db, 400)
    else if !(1 <= pid <= |db.packages|) then Reply(db, 404)
    else
      var p := db.packages[pid - 1];
      if status.value == Approved && p.confidence < 4 then Reply(db, 400)
      else
        var db' := db.(packages := db.packages[pid - 1 := p.(status := status.value)]);
        Reply(if status.value == Approved then db'.(versions := Mint(db.versions, p, pid)) else db', 200)
  }

  /** Make version `k` the only active one of its dataset. */
  function SetActive(vs: seq<Version>, k: nat): (r: seq<Version>)
    requires k < |vs|
    ensures |r| == |vs|
  {
    seq(|vs|, i requires 0 <= i < |vs| =>
      if vs[i].dataset == vs[k].dataset then vs[i].(isActive := i == k) else vs[i])
  }

  function ActivateVersion(db: Db, vid: nat): Reply {
    if !(1 <= vid <= |db.versions|) then Reply(db, 404)
    else
      var pid := db.versions[vid - 1].packageId;
      if !(1 <= pid <= |db.packages|) || db.packages[pid - 1].status != Approved || db.packages[pid - 1].confidence < 4
      then Reply(db, 400)
      else Reply(db.(versions := SetActive(db.versions, vid - 1)), 200)
  }

  /** The last of the first `n` versions that has dataset `d` and confidence 4. */
  function LastGood(vs: seq<Version>, n: nat, d: string): (r: Option<nat>)
    requires n <= |vs|
    ensures r.Some? ==> r.value < n && vs[r.value].dataset == d && vs[r.value].confidence == 4
  {
    if n == 0 then None
    else if vs[n - 1].dataset == d && vs[n - 1].confidence == 4 then Some(n - 1)
    else LastGood(vs, n - 1, d)
  }

  function RollbackVersion(db: Db, vid: nat): Reply {
    if !(1 <= vid <= |db.versions|) then Reply(db, 404)
    else
      var previous := LastGood(db.versions, vid - 1, db.versions[vid - 1].dataset);
      if previous.None? then Reply(db, 400)
      else Reply(db.(versions := SetActive(db.versions, previous.value)), 200)
  }

  // --------------------------------------------------- calculations and their traces

  function FindCalc(calcs: seq<Calc>, id: nat): (r: Option<Calc>)
    ensures r.Some? ==> r.value in calcs && r.value.id == id
    ensures r.None? ==> forall c :: c in calcs ==> c.id != id
  {
    if calcs == [] then None
    else if calcs[0].id == id then Some(calcs[0])
    else FindCalc(calcs[1..], id)
  }

  /** SQLite's rowid for a new row of a table without AUTOINCREMENT. */
  function NextId(calcs: seq<Calc>): (r: nat)
    ensures r >= 1 && forall c :: c in calcs ==> c.id < r
    ensures if calcs == [] then r == 1 else exists c :: c in calcs && c.id + 1 == r
  {
    if calcs == [] then 1
    else
      var rest := NextId(calcs[..|calcs| - 1]);
      var last := calcs[|calcs| - 1];
      assert forall c :: c in calcs ==> c in calcs[..|calcs| - 1] || c == last;
      if last.id < rest then rest else last.id + 1
  }

  function OwnsProject(db: Db, user: nat, project: nat): bool {
    1 <= project <= |db.projects| && db.projects[project - 1] == user
  }

  function CreateProject(db: Db, user: nat, role: Role): Reply {
    if role == Viewer then Reply(db, 403)
    else Reply(db.(projects := db.projects + [user]), 200)
  }

  /** First commit of `add`: the calculation row. */
  function AddCalc(db: Db, user: nat, role: Role, project: Option<nat>, inputs: string): Reply {
    if role == Viewer then Reply(db, 403)
    else if project.Some? && !OwnsProject(db, user, project.value) then Reply(db, 404)
    else
      var id := NextId(db.calcs);
      Reply(db.(calcs := db.calcs + [Calc(id, user, project, inputs)], pending := db.pending + [id]), 200)
  }

  function TracesOf(vs: seq<Version>, cid: nat): seq<Trace> {
    if vs == [] then []
    else
      var n := |vs|;
      TracesOf(vs[..n - 1], cid)
      + if vs[n - 1].isActive then [Trace(cid, vs[n - 1].dataset, n, vs[n - 1].versionNo, vs[n - 1].packageId)] else []
  }

  /** Second commit of the `k`-th unfinished `add`: copy the versions active at this moment. */
  function WriteTrace(db: Db, k: nat): Reply {
    if k >= |db.pending| then Reply(db, 404)
    else Reply(db.(traces := db.traces + TracesOf(db.versions, db.pending[k]),
                   pending := db.pending[..k] + db.pending[k + 1..]), 200)
  }

  function DeleteCalc(db: Db, user: nat, role: Role, cid: nat): Reply {
    if role == Viewer then Reply(db, 403)
    else
      var kept := Filter(db.calcs, (c: Calc) => !(c.id == cid && c.owner == user));
      if |kept| == |db.calcs| then Reply(db, 404) else Reply(db.(calcs := kept), 200)
  }

  function ClearCalcs(db: Db, user: nat, role: Role): Reply {
    if role == Viewer then Reply(db, 403)
    else Reply(db.(calcs := Filter(db.calcs, (c: Calc) => c.owner != user)), 200)
  }

  // ------------------------------------------------------------------- revisions

  /** The revision of a calculation with the highest number. */
  function Latest(rs: seq<Revision>, cid: nat): (r: Option<Revision>)
    ensures r.Some? ==> r.value in rs && r.value.calcId == cid
  {
    if rs == [] then None
    else
      var best := Latest(rs[..|rs| - 1], cid);
      var last := rs[|rs| - 1];
      if last.calcId == cid && (best.None? || best.value.revisionNo < last.revisionNo) then Some(last) else best
  }

  predicate Locked(rs: seq<Revision>, cid: nat) {
    exists i :: 0 <= i < |rs| && rs[i].calcId == cid && rs[i].locked
  }

  function CreateRevision(db: Db, user: nat, cid: nat): Reply {
    var found := FindCalc(db.calcs, cid);
    if found.None? || found.value.owner != user then Reply(db, 404)
    else if Locked(db.revisions, cid) then Reply(db, 400)
    else
      var best := Latest(db.revisions, cid);
      var number := (if best.Some? then best.value.revisionNo else 0) + 1;
      Reply(db.(revisions := db.revisions + [Revision(cid, number, found.value, Draft, false, user, None)]), 200)
  }

  function SubmitRevision(db: Db, user: nat, rid: nat): Reply {
    if !(1 <= rid <= |db.revisions|) then Reply(db, 404)
    else
      var r := db.revisions[rid - 1];
      var found := FindCalc(db.calcs, r.calcId);
      if found.None? || found.value.owner != user then Reply(db, 404)
      else if r.status != Draft then Reply(db, 400)
      else Reply(db.(revisions := db.revisions[rid - 1 := r.(status := Review)]), 200)
  }

  function ApproveRevision(db: Db, user: nat, role: Role, rid: nat): Reply {
    if role == Viewer then Reply(db, 403)
    else if !(1 <= rid <= |db.revisions|) then Reply(db, 404)
    else
      var r := db.revisions[rid - 1];
      if r.createdBy == user then Reply(db, 400)
      else Reply(db.(revisions := db.revisions[rid - 1 :=
                       r.(status := Approved, locked := true, reviewedBy := Some(user))]), 200)
  }

  function RejectRevision(db: Db, user: nat, role: Role, rid: nat): Reply {
    if role == Viewer then Reply(db, 403)
    else if !(1 <= rid <= |db.revisions|) then Reply(db, 404)
    else
      var r := db.revisions[rid - 1];
      if r.createdBy == user then Reply(db, 400)
      else Reply(db.(revisions := db.revisions[rid - 1 :=
                       r.(status := Rejected, reviewedBy := Some(user))]), 200)
  }

  // ------------------------------------------------------------------------ runs

  datatype Event =
    | CreatePackageE(dataset: string, hash: string, content: Content, confidence: nat)
    | SetPackageStatusE(pid: nat, status: Option<Status>)
    | ActivateVersionE(vid: nat)
    | RollbackVersionE(vid: nat)
    | CreateProjectE(user: nat, role: Role)
    | AddCalcE(user: nat, role: Role, project: Option<nat>, inputs: string)
    | WriteTraceE(k: nat)
    | DeleteCalcE(user: nat, role: Role, cid: nat)
    | ClearCalcsE(user: nat, role: Role)
    | CreateRevisionE(user: nat, cid: nat)
    | SubmitRevisionE(user: nat, rid: nat)
    | ApproveRevisionE(user: nat, role: Role, rid: nat)
    | RejectRevisionE(user: nat, role: Role, rid: nat)

  function Handle(db: Db, e: Event): Reply {
    match e
    case CreatePackageE(d, h, c, g) => CreatePackage(db, d, h, c, g)
    case SetPackageStatusE(pid, s) => SetPackageStatus(db, pid, s)
    case ActivateVersionE(vid) => ActivateVersion(db, vid)
    case RollbackVersionE(vid) => RollbackVersion(db, vid)
    case CreateProjectE(u, r) => CreateProject(db, u, r)
    case AddCalcE(u, r, p, i) => AddCalc(db, u, r, p, i)
    case WriteTraceE(k) => WriteTrace(db, k)
    case DeleteCalcE(u, r, cid) => DeleteCalc(db, u, r, cid)
    case ClearCalcsE(u, r) => ClearCalcs(db, u, r)
    case CreateRevisionE(u, cid) => CreateRevision(db, u, cid)
    case SubmitRevisionE(u, rid) => SubmitRevision(db, u, rid)
    case ApproveRevisionE(u, r, rid) => ApproveRevision(db, u, r, rid)
    case RejectRevisionE(u, r, rid) => RejectRevision(db, u, r, rid)
  }

  function Step(db: Db, e: Event): Db {
    Handle(db, e).db
  }

  /** The requests of a run, served one after the other. */
  function Run(db: Db, es: seq<Event>): Db
    decreases |es|
  {
    if es == [] then db else Run(Step(db, es[0]), es[1..])
  }

  lemma {:induction false} RunConcat(db: Db, es: seq<Event>, fs: seq<Event>)
    ensures Run(db, es + fs) == Run(Run(db, es), fs)
    decreases |es|
  {
    if es == [] {
      assert es + fs == fs;
    } else {
      assert (es + fs)[1..] == es[1..] + fs;
      RunConcat(Step(db, es[0]), es[1..], fs);
    }
  }
}
