/**
 Revisions over every run: numbering, locking, the four-eyes rule, and when a project's
 release package is ready.
 */
module RevisionHistory {
  import opened Options
  import opened Sorting
  import opened ReleaseTables
  import opened TraceHistory

  function RevCount(rs: seq<Revision>, cid: nat): nat {
    if rs == [] then 0
    else RevCount(rs[..|rs| - 1], cid) + if rs[|rs| - 1].calcId == cid then 1 else 0
  }

  /** The place of row `i` among the revisions of its calculation, counted from 1. */
  function RevOrdinal(rs: seq<Revision>, i: nat): nat
    requires i < |rs|
  {
    RevCount(rs[..i + 1], rs[i].calcId)
  }

  ghost predicate RevNumbered(rs: seq<Revision>) {
    forall i {:trigger RevOrdinal(rs, i)} :: 0 <= i < |rs| ==> rs[i].revisionNo == RevOrdinal(rs, i)
  }

  /** What the status of a revision says about its lock and its reviewer. */
  ghost predicate StatusOk(r: Revision) {
    match r.status
    case Draft => !r.locked && r.reviewedBy.None?
    case Review => !r.locked && r.reviewedBy.None?
    case Approved => r.locked && r.reviewedBy.Some? && r.reviewedBy.value != r.createdBy
    case Rejected => r.reviewedBy.Some? && r.reviewedBy.value != r.createdBy
  }

  ghost predicate RevisionsOk(rs: seq<Revision>) {
    RevNumbered(rs) && forall i :: 0 <= i < |rs| ==> StatusOk(rs[i])
  }

  // ------------------------------------------------------------ the latest revision

  /** The position plus one of the last revision row of a calculation, or 0. */
  function LastRow(rs: seq<Revision>, cid: nat): (r: nat)
    ensures r <= |rs| && (r > 0 ==> rs[r - 1].calcId == cid)
    ensures r == 0 <==> forall i :: 0 <= i < |rs| ==> rs[i].calcId != cid
  {
    if rs == [] then 0
    else if rs[|rs| - 1].calcId == cid then |rs|
    else
      assert forall i :: 0 <= i < |rs| - 1 ==> rs[..|rs| - 1][i] == rs[i];
      LastRow(rs[..|rs| - 1], cid)
  }

  /** ORDER BY revision_no DESC LIMIT 1 finds the row inserted last, numbered by their count. */
  lemma {:induction false} LatestIsLast(rs: seq<Revision>, cid: nat)
    requires RevNumbered(rs)
    ensures Latest(rs, cid) == if LastRow(rs, cid) == 0 then None else Some(rs[LastRow(rs, cid) - 1])
    ensures RevCount(rs, cid) == if LastRow(rs, cid) == 0 then 0 else Latest(rs, cid).value.revisionNo
  {
    if rs != [] {
      var n := |rs| - 1;
      RevNumberedPrefix(rs, n);
      LatestIsLast(rs[..n], cid);
      assert rs[..n + 1] == rs;
      assert RevOrdinal(rs, n) == RevCount(rs, rs[n].calcId);
    }
  }

  lemma RevNumberedPrefix(rs: seq<Revision>, n: nat)
    requires RevNumbered(rs) && n <= |rs|
    ensures RevNumbered(rs[..n])
  {
    forall i | 0 <= i < n ensures rs[..n][i].revisionNo == RevOrdinal(rs[..n], i) {
      assert rs[..n][..i + 1] == rs[..i + 1];
      assert RevOrdinal(rs, i) == RevOrdinal(rs[..n], i);
    }
  }

  lemma {:induction false} RevCountFrame(rs: seq<Revision>, ss: seq<Revision>, cid: nat)
    requires |rs| == |ss| && forall i :: 0 <= i < |rs| ==> rs[i].calcId == ss[i].calcId
    ensures RevCount(rs, cid) == RevCount(ss, cid)
    ensures LastRow(rs, cid) == LastRow(ss, cid)
  {
    if rs != [] { RevCountFrame(rs[..|rs| - 1], ss[..|ss| - 1], cid); }
  }

  // ------------------------------------------------------------- every request keeps it

  /** Writing back a revision with its calculation and number keeps the numbering. */
  lemma UpdateKeeps(rs: seq<Revision>, k: nat, r: Revision)
    requires RevisionsOk(rs) && k < |rs| && StatusOk(r)
    requires r.calcId == rs[k].calcId && r.revisionNo == rs[k].revisionNo
    ensures RevisionsOk(rs[k := r])
  {
    var ss := rs[k := r];
    forall i | 0 <= i < |ss| ensures ss[i].revisionNo == RevOrdinal(ss, i) {
      RevCountFrame(rs[..i + 1], ss[..i + 1], rs[i].calcId);
      assert RevOrdinal(rs, i) == RevOrdinal(ss, i);
    }
  }

  lemma AppendKeeps(rs: seq<Revision>, r: Revision)
    requires RevisionsOk(rs) && StatusOk(r)
    requires r.revisionNo == RevCount(rs, r.calcId) + 1
    ensures RevisionsOk(rs + [r])
  {
    var ss := rs + [r];
    forall i | 0 <= i < |ss| ensures ss[i].revisionNo == RevOrdinal(ss, i) {
      AppendOrdinal(rs, r, i);
      if i < |rs| { assert ss[i] == rs[i] && rs[i].revisionNo == RevOrdinal(rs, i); }
    }
    forall i | 0 <= i < |ss| ensures StatusOk(ss[i]) {
      if i < |rs| { assert ss[i] == rs[i]; }
    }
  }

  lemma AppendOrdinal(rs: seq<Revision>, r: Revision, i: nat)
    requires i <= |rs|
    ensures RevOrdinal(rs + [r], i) == if i < |rs| then RevOrdinal(rs, i) else RevCount(rs, r.calcId) + 1
  {
    var ss := rs + [r];
    if i < |rs| {
      assert ss[..i + 1] == rs[..i + 1];
    } else {
      assert ss[..i + 1] == ss;
      RevCountAppend(rs, r);
    }
  }

  lemma RevCountAppend(rs: seq<Revision>, r: Revision)
    ensures RevCount(rs + [r], r.calcId) == RevCount(rs, r.calcId) + 1
  {
    assert (rs + [r])[..|rs|] == rs;
  }

  lemma CreateKeeps(db: Db, user: nat, cid: nat)
    requires RevisionsOk(db.revisions)
    ensures RevisionsOk(CreateRevision(db, user, cid).db.revisions)
  {
    LatestIsLast(db.revisions, cid);
    if CreateRevision(db, user, cid).code == 200 {
      var rs := CreateRevision(db, user, cid).db.revisions;
      AppendKeeps(db.revisions, rs[|rs| - 1]);
    }
  }

  lemma StepKeepsRevisions(db: Db, e: Event)
    requires RevisionsOk(db.revisions)
    ensures RevisionsOk(Step(db, e).revisions)
  {
    match e
    case CreateRevisionE(u, cid) => CreateKeeps(db, u, cid);
    case SubmitRevisionE(_, rid) =>
      if Handle(db, e).code == 200 { UpdateKeeps(db.revisions, rid - 1, Step(db, e).revisions[rid - 1]); }
    case ApproveRevisionE(_, _, rid) =>
      if Handle(db, e).code == 200 { UpdateKeeps(db.revisions, rid - 1, Step(db, e).revisions[rid - 1]); }
    case RejectRevisionE(_, _, rid) =>
      if Handle(db, e).code == 200 { UpdateKeeps(db.revisions, rid - 1, Step(db, e).revisions[rid - 1]); }
    case _ =>
      assert Step(db, e).revisions == db.revisions;
  }

  lemma {:induction false} RunKeepsRevisions(db: Db, es: seq<Event>)
    requires RevisionsOk(db.revisions)
    ensures RevisionsOk(Run(db, es).revisions)
    decreases |es|
  {
    if es != [] {
      StepKeepsRevisions(db, es[0]);
      RunKeepsRevisions(Step(db, es[0]), es[1..]);
    }
  }

  // ------------------------------------------------------------- how a table evolves

  /** One revision, earlier and later: what it records stays, locks stay, and it never goes back. */
  ghost predicate RevisionEvolves(r: Revision, s: Revision) {
    && s.calcId == r.calcId && s.revisionNo == r.revisionNo && s.snapshot == r.snapshot && s.createdBy == r.createdBy
    && (r.locked ==> s.locked)
    && (s.status == Draft ==> r.status == Draft)
    && (s.status == Review ==> r.status == Draft || r.status == Review)
  }

  /** Rows are kept and evolve; a calculation with a locked revision gets no further ones. */
  ghost predicate Evolves(rs: seq<Revision>, ss: seq<Revision>) {
    && |rs| <= |ss|
    && (forall i :: 0 <= i < |rs| ==> RevisionEvolves(rs[i], ss[i]))
    && (forall i :: |rs| <= i < |ss| ==> !Locked(rs, ss[i].calcId))
  }

  lemma StepEvolves(db: Db, e: Event)
    ensures Evolves(db.revisions, Step(db, e).revisions)
  {
    match e
    case CreateRevisionE(u, cid) =>
    case SubmitRevisionE(_, rid) =>
    case ApproveRevisionE(_, _, rid) =>
    case RejectRevisionE(_, _, rid) =>
    case _ =>
      assert Step(db, e).revisions == db.revisions;
  }

  lemma EvolvesTransitive(rs: seq<Revision>, ss: seq<Revision>, ts: seq<Revision>)
    requires Evolves(rs, ss) && Evolves(ss, ts)
    ensures Evolves(rs, ts)
  {
    forall i | 0 <= i < |rs| ensures RevisionEvolves(rs[i], ts[i]) {
      assert RevisionEvolves(rs[i], ss[i]) && RevisionEvolves(ss[i], ts[i]);
    }
    forall i | |rs| <= i < |ts| ensures !Locked(rs, ts[i].calcId) {
      if i < |ss| {
        assert RevisionEvolves(ss[i], ts[i]);
      } else if Locked(rs, ts[i].calcId) {
        var k :| 0 <= k < |rs| && rs[k].calcId == ts[i].calcId && rs[k].locked;
        assert RevisionEvolves(rs[k], ss[k]);
        assert Locked(ss, ts[i].calcId);
      }
    }
  }

  /** Over every run revisions evolve, whatever the requests and their order. */
  lemma {:induction false} RunEvolves(db: Db, es: seq<Event>)
    ensures Evolves(db.revisions, Run(db, es).revisions)
    decreases |es|
  {
    if es != [] {
      StepEvolves(db, es[0]);
      RunEvolves(Step(db, es[0]), es[1..]);
      EvolvesTransitive(db.revisions, Step(db, es[0]).revisions, Run(db, es).revisions);
    }
  }

  // ------------------------------------------------------------- release readiness

  function InProject(p: nat): Calc -> bool {
    (c: Calc) => c.project == Some(p)
  }

  function ProjectCalcs(db: Db, p: nat): seq<Calc> {
    Filter(db.calcs, InProject(p))
  }

  predicate ApprovedLatest(rs: seq<Revision>, cid: nat) {
    var r := Latest(rs, cid);
    r.Some? && r.value.status == Approved
  }

  /** The project has calculations, and the highest revision of each one is approved. */
  ghost predicate Ready(db: Db, p: nat) {
    && (exists c :: c in db.calcs && c.project == Some(p))
    && (forall c :: c in db.calcs && c.project == Some(p) ==> ApprovedLatest(db.revisions, c.id))
  }

  /**
   A calculation of a ready project is locked, was approved by someone other than the
   revision's author, and neither the next request nor any later run adds a revision to it.
   */
  lemma ReadyMeans(db: Db, p: nat, c: Calc, es: seq<Event>)
    requires RevisionsOk(db.revisions) && Ready(db, p) && c in db.calcs && c.project == Some(p)
    ensures Locked(db.revisions, c.id)
    ensures var r := Latest(db.revisions, c.id).value; r.reviewedBy.Some? && r.reviewedBy.value != r.createdBy
    ensures forall i :: |db.revisions| <= i < |Run(db, es).revisions| ==> Run(db, es).revisions[i].calcId != c.id
    ensures forall user :: CreateRevision(db, user, c.id).code != 200
  {
    LatestIsLast(db.revisions, c.id);
    var k := LastRow(db.revisions, c.id) - 1;
    assert db.revisions[k].locked;
    RunEvolves(db, es);
  }

  /**
   The requests that end readiness: adding a calculation whose id has no approved latest
   revision left behind, rejecting the latest revision of one of the project's calculations,
   and deleting the last of them.
   */
  ghost predicate Unreadies(db: Db, e: Event, p: nat) {
    match e
    case AddCalcE(_, _, project, _) =>
      Handle(db, e).code == 200 && project == Some(p) && !ApprovedLatest(db.revisions, NextId(db.calcs))
    case RejectRevisionE(_, _, rid) =>
      && Handle(db, e).code == 200
      && LastRow(db.revisions, db.revisions[rid - 1].calcId) == rid
      && exists c :: c in db.calcs && c.project == Some(p) && c.id == db.revisions[rid - 1].calcId
    case DeleteCalcE(_, _, _) => forall c :: c in Step(db, e).calcs ==> c.project != Some(p)
    case ClearCalcsE(_, _) => forall c :: c in Step(db, e).calcs ==> c.project != Some(p)
    case _ => false
  }

  lemma UpdateLatest(rs: seq<Revision>, k: nat, r: Revision, cid: nat)
    requires RevisionsOk(rs) && k < |rs| && StatusOk(r)
    requires r.calcId == rs[k].calcId && r.revisionNo == rs[k].revisionNo
    ensures ApprovedLatest(rs[k := r], cid)
      <==> if LastRow(rs, cid) == k + 1 then r.status == Approved else ApprovedLatest(rs, cid)
  {
    var ss, last := rs[k := r], LastRow(rs, cid);
    assert RevisionsOk(ss) by { UpdateKeeps(rs, k, r); }
    assert LastRow(ss, cid) == last by { RevCountFrame(rs, ss, cid); }
    LatestIsLast(rs, cid);
    LatestIsLast(ss, cid);
    if last != 0 { assert ss[last - 1] == if last == k + 1 then r else rs[last - 1]; }
  }

  lemma AppendLatest(rs: seq<Revision>, r: Revision, cid: nat)
    requires cid != r.calcId
    ensures Latest(rs + [r], cid) == Latest(rs, cid)
  {
    assert (rs + [r])[..|rs|] == rs;
  }

  lemma RejectReady(db: Db, user: nat, role: Role, rid: nat, p: nat)
    requires RevisionsOk(db.revisions) && Ready(db, p)
    ensures Ready(RejectRevision(db, user, role, rid).db, p) <==> !Unreadies(db, RejectRevisionE(user, role, rid), p)
  {
    if RejectRevision(db, user, role, rid).code == 200 {
      var after := RejectRevision(db, user, role, rid).db;
      forall c | c in db.calcs && c.project == Some(p)
        ensures ApprovedLatest(after.revisions, c.id) <==> LastRow(db.revisions, c.id) != rid
      {
        RejectedLatest(db, user, role, rid, c.id);
      }
      LastRowIsOwn(db.revisions, rid);
    } else {
      assert RejectRevision(db, user, role, rid).db == db;
    }
  }

  /** Rejecting a row unapproves a calculation exactly when the row is its latest. */
  lemma RejectedLatest(db: Db, user: nat, role: Role, rid: nat, cid: nat)
    requires RevisionsOk(db.revisions) && ApprovedLatest(db.revisions, cid)
    requires RejectRevision(db, user, role, rid).code == 200
    ensures ApprovedLatest(RejectRevision(db, user, role, rid).db.revisions, cid) <==> LastRow(db.revisions, cid) != rid
  {
    var r := db.revisions[rid - 1].(status := Rejected, reviewedBy := Some(user));
    UpdateLatest(db.revisions, rid - 1, r, cid);
  }

  /** A row can only be the latest of the calculation it belongs to. */
  lemma LastRowIsOwn(rs: seq<Revision>, rid: nat)
    requires 1 <= rid <= |rs|
    ensures forall cid :: LastRow(rs, cid) == rid ==> cid == rs[rid - 1].calcId
  {
  }

  lemma ApproveReady(db: Db, user: nat, role: Role, rid: nat, p: nat)
    requires RevisionsOk(db.revisions) && Ready(db, p)
    ensures Ready(ApproveRevision(db, user, role, rid).db, p)
  {
    var db' := ApproveRevision(db, user, role, rid).db;
    if ApproveRevision(db, user, role, rid).code == 200 {
      forall c | c in db.calcs && c.project == Some(p) ensures ApprovedLatest(db'.revisions, c.id) {
        UpdateLatest(db.revisions, rid - 1, db'.revisions[rid - 1], c.id);
      }
    }
  }

  lemma SubmitReady(db: Db, user: nat, rid: nat, p: nat)
    requires RevisionsOk(db.revisions) && Ready(db, p)
    ensures Ready(SubmitRevision(db, user, rid).db, p)
  {
    var db' := SubmitRevision(db, user, rid).db;
    if SubmitRevision(db, user, rid).code == 200 {
      forall c | c in db.calcs && c.project == Some(p) ensures ApprovedLatest(db'.revisions, c.id) {
        UpdateLatest(db.revisions, rid - 1, db'.revisions[rid - 1], c.id);
        LatestIsLast(db.revisions, c.id);
      }
    }
  }

  lemma CreateReady(db: Db, user: nat, cid: nat, p: nat)
    requires RevisionsOk(db.revisions) && Ready(db, p)
    ensures Ready(CreateRevision(db, user, cid).db, p)
  {
    var db' := CreateRevision(db, user, cid).db;
    if CreateRevision(db, user, cid).code == 200 {
      forall c | c in db.calcs && c.project == Some(p) ensures ApprovedLatest(db'.revisions, c.id) {
        ReadyMeans(db, p, c, []);
        AppendLatest(db.revisions, db'.revisions[|db.revisions|], c.id);
      }
    }
  }

  lemma DeleteReady(db: Db, e: Event, p: nat)
    requires Deletes(e) && Ready(db, p)
    ensures Ready(Step(db, e), p) <==> !Unreadies(db, e, p)
  {
    forall c ensures c in Step(db, e).calcs ==> c in db.calcs {
      match e
      case DeleteCalcE(u, r, cid) => FilterMember(db.calcs, (c: Calc) => !(c.id == cid && c.owner == u), c);
      case ClearCalcsE(u, r) => FilterMember(db.calcs, (c: Calc) => c.owner != u, c);
    }
    assert Step(db, e).revisions == db.revisions;
  }

  lemma AddReady(db: Db, e: Event, p: nat)
    requires e.AddCalcE? && Ready(db, p)
    ensures Ready(Step(db, e), p) <==> !Unreadies(db, e, p)
  {
    var db' := Step(db, e);
    assert db'.revisions == db.revisions;
    if Handle(db, e).code == 200 {
      var added := db'.calcs[|db.calcs|];
      assert db'.calcs == db.calcs + [added];
      assert forall c :: c in db'.calcs <==> c in db.calcs || c == added;
    }
  }

  /** A ready project stays ready through a request exactly when the request is none of those. */
  lemma ReadyPersistsExactly(db: Db, e: Event, p: nat)
    requires RevisionsOk(db.revisions) && Ready(db, p)
    ensures Ready(Step(db, e), p) <==> !Unreadies(db, e, p)
  {
    match e
    case AddCalcE(_, _, _, _) => AddReady(db, e, p);
    case DeleteCalcE(_, _, _) => DeleteReady(db, e, p);
    case ClearCalcsE(_, _) => DeleteReady(db, e, p);
    case CreateRevisionE(u, cid) => CreateReady(db, u, cid, p);
    case SubmitRevisionE(u, rid) => SubmitReady(db, u, rid, p);
    case ApproveRevisionE(u, r, rid) => ApproveReady(db, u, r, rid, p);
    case RejectRevisionE(u, r, rid) => RejectReady(db, u, r, rid, p);
    case _ =>
      assert Step(db, e).revisions == db.revisions && Step(db, e).calcs == db.calcs;
  }

  // --------------------------------------------------- authors, and ids given out twice

  /** Every revision belongs to the calculation it was made from and its owner. */
  ghost predicate Authored(db: Db) {
    forall r :: r in db.revisions ==>
      && 1 <= r.calcId <= |db.calcs| && r.snapshot == db.calcs[r.calcId - 1] && r.createdBy == r.snapshot.owner
  }

  lemma CreateKeepsAuthored(db: Db, user: nat, cid: nat)
    requires Fresh(db) && Authored(db)
    ensures Authored(CreateRevision(db, user, cid).db)
  {
    var found := FindCalc(db.calcs, cid);
    if found.Some? {
      var i :| 0 <= i < |db.calcs| && db.calcs[i] == found.value;
      assert i == cid - 1;
    }
  }

  lemma StepKeepsAuthored(db: Db, e: Event)
    requires Fresh(db) && Authored(db) && !Deletes(e)
    ensures Authored(Step(db, e))
  {
    var db' := Step(db, e);
    StepEvolves(db, e);
    match e
    case CreateRevisionE(u, cid) => CreateKeepsAuthored(db, u, cid);
    case DeleteCalcE(_, _, _) =>
    case ClearCalcsE(_, _) =>
    case AddCalcE(_, _, _, _) =>
    case SubmitRevisionE(_, rid) => UpdateAuthored(db, db', rid);
    case ApproveRevisionE(_, _, rid) => UpdateAuthored(db, db', rid);
    case RejectRevisionE(_, _, rid) => UpdateAuthored(db, db', rid);
    case _ =>
      assert db'.revisions == db.revisions && db'.calcs == db.calcs;
  }

  lemma UpdateAuthored(db: Db, db': Db, rid: nat)
    requires Authored(db) && db'.calcs == db.calcs && |db'.revisions| == |db.revisions|
    requires Evolves(db.revisions, db'.revisions)
    ensures Authored(db')
  {
    forall r | r in db'.revisions
      ensures 1 <= r.calcId <= |db.calcs| && r.snapshot == db.calcs[r.calcId - 1] && r.createdBy == r.snapshot.owner
    {
      var i :| 0 <= i < |db'.revisions| && db'.revisions[i] == r;
      assert RevisionEvolves(db.revisions[i], r) && db.revisions[i] in db.revisions;
    }
  }

  lemma {:induction false} RunKeepsAuthored(db: Db, es: seq<Event>)
    requires Fresh(db) && Authored(db) && forall e :: e in es ==> !Deletes(e)
    ensures Fresh(Run(db, es)) && Authored(Run(db, es))
    decreases |es|
  {
    if es != [] {
      StepKeepsFresh(db, es[0]);
      StepKeepsAuthored(db, es[0]);
      RunKeepsAuthored(Step(db, es[0]), es[1..]);
    }
  }

  /** Without deletions, what a ready project releases was approved by someone other than its owner. */
  lemma ReadyIsReviewed(es: seq<Event>, p: nat, c: Calc)
    requires forall e :: e in es ==> !Deletes(e)
    requires Ready(Run(EMPTY, es), p) && c in Run(EMPTY, es).calcs && c.project == Some(p)
    ensures var r := Latest(Run(EMPTY, es).revisions, c.id).value;
      r.snapshot == c && r.reviewedBy.Some? && r.reviewedBy.value != c.owner
  {
    var db := Run(EMPTY, es);
    RunKeepsAuthored(EMPTY, es);
    RunKeepsRevisions(EMPTY, es);
    ReadyReviewed(db, p, c);
  }

  lemma ReadyReviewed(db: Db, p: nat, c: Calc)
    requires Fresh(db) && Authored(db) && RevisionsOk(db.revisions)
    requires Ready(db, p) && c in db.calcs && c.project == Some(p)
    ensures var r := Latest(db.revisions, c.id).value;
      r.snapshot == c && r.reviewedBy.Some? && r.reviewedBy.value != c.owner
  {
    ReadyMeans(db, p, c, []);
    var i :| 0 <= i < |db.calcs| && db.calcs[i] == c;
    LatestIsLast(db.revisions, c.id);
  }

  // ------------------------------------- one calculation from its request on, with deletions

  /** As long as a calculation's id is in the table, the row is the calculation itself. */
  lemma StepKeepsCalc(db: Db, e: Event, c: Calc)
    requires IdsIncrease(db.calcs) && c in db.calcs && Exists(Step(db, e), c.id)
    ensures c in Step(db, e).calcs
  {
    match e
    case AddCalcE(_, _, _, _) =>
    case DeleteCalcE(u, r, cid) =>
      KeptCalc(db.calcs, (k: Calc) => !(k.id == cid && k.owner == u), c);
    case ClearCalcsE(u, r) =>
      KeptCalc(db.calcs, (k: Calc) => k.owner != u, c);
    case _ =>
      assert Step(db, e).calcs == db.calcs;
  }

  lemma KeptCalc(calcs: seq<Calc>, p: Calc -> bool, c: Calc)
    requires IdsIncrease(calcs) && c in calcs
    ensures FindCalc(Filter(calcs, p), c.id).Some? ==> c in Filter(calcs, p)
  {
    var found := FindCalc(Filter(calcs, p), c.id);
    if found.Some? {
      FilterMember(calcs, p, found.value);
      SameIdSameCalc(calcs, found.value, c);
    }
  }

  lemma SameIdSameCalc(calcs: seq<Calc>, c: Calc, d: Calc)
    requires IdsIncrease(calcs) && c in calcs && d in calcs && c.id == d.id
    ensures c == d
  {
    var i :| 0 <= i < |calcs| && calcs[i] == c;
    var j :| 0 <= j < |calcs| && calcs[j] == d;
  }

  /** The revision records this calculation, made by its owner. */
  predicate IsOf(r: Revision, c: Calc) {
    r.snapshot == c && r.createdBy == c.owner
  }

  lemma StepRecords(db: Db, e: Event, c: Calc)
    requires IdsIncrease(db.calcs) && c in db.calcs
    ensures forall i :: |db.revisions| <= i < |Step(db, e).revisions| && Step(db, e).revisions[i].calcId == c.id ==>
      IsOf(Step(db, e).revisions[i], c)
  {
    match e
    case CreateRevisionE(u, cid) =>
      var found := FindCalc(db.calcs, cid);
      if found.Some? && cid == c.id { SameIdSameCalc(db.calcs, found.value, c); }
    case SubmitRevisionE(_, _) =>
    case ApproveRevisionE(_, _, _) =>
    case RejectRevisionE(_, _, _) =>
    case _ =>
      assert Step(db, e).revisions == db.revisions;
  }

  /** While a calculation survives, every revision made under its id records it. */
  lemma {:induction false} LaterRevisionsRecord(db: Db, es: seq<Event>, c: Calc)
    requires IdsIncrease(db.calcs) && c in db.calcs && Survives(db, es, c.id)
    ensures var rs := Run(db, es).revisions;
      forall i :: |db.revisions| <= i < |rs| && rs[i].calcId == c.id ==> IsOf(rs[i], c)
    decreases |es|
  {
    if es != [] {
      var next, rs := Step(db, es[0]), Run(db, es).revisions;
      StepKeepsIncrease(db, es[0]);
      StepKeepsCalc(db, es[0], c);
      StepRecords(db, es[0], c);
      LaterRevisionsRecord(next, es[1..], c);
      RunEvolves(next, es[1..]);
      assert rs == Run(next, es[1..]).revisions;
      forall i | |db.revisions| <= i < |rs| && rs[i].calcId == c.id ensures IsOf(rs[i], c) {
        if i < |next.revisions| {
          assert RevisionEvolves(next.revisions[i], rs[i]);
          assert IsOf(next.revisions[i], c);
        } else {
          assert IsOf(rs[i], c);
        }
      }
    }
  }

  /** Rows older than `start` that belong to other ids stay where they are. */
  lemma OldRowsStayOthers(db: Db, es: seq<Event>, cid: nat)
    requires LastRow(db.revisions, cid) == 0
    ensures var last := LastRow(Run(db, es).revisions, cid); last == 0 || last > |db.revisions|
  {
    RunEvolves(db, es);
    var rs := Run(db, es).revisions;
    forall i | 0 <= i < |db.revisions| ensures rs[i].calcId != cid {
      assert RevisionEvolves(db.revisions[i], rs[i]);
    }
  }

  /** Whenever an approval stands for the id, it was given to a revision made after `start` rows. */
  ghost predicate OnlyNewApprovals(db: Db, start: nat, cid: nat) {
    forall es {:trigger Run(db, es)} :: Survives(db, es, cid) && ApprovedLatest(Run(db, es).revisions, cid) ==>
      LastRow(Run(db, es).revisions, cid) > start
  }

  /**
   A calculation just added can be released, at whatever later moment, only on an approval of one
   of its own revisions exactly when the id it was given carries no revision rows. What is left
   under a reused id can be approved, or stay approved, for the new calculation.
   */
  lemma AddIsReviewedExactly(db: Db, add: Event)
    requires RevisionsOk(db.revisions) && IdsIncrease(db.calcs)
    requires add.AddCalcE? && Handle(db, add).code == 200
    ensures OnlyNewApprovals(Step(db, add), |db.revisions|, NextId(db.calcs))
       <==> LastRow(db.revisions, NextId(db.calcs)) == 0
  {
    var added, cid := Step(db, add), NextId(db.calcs);
    if LastRow(db.revisions, cid) == 0 {
      forall es | Survives(added, es, cid) && ApprovedLatest(Run(added, es).revisions, cid)
        ensures LastRow(Run(added, es).revisions, cid) > |db.revisions|
      {
        RunKeepsRevisions(added, es);
        LatestIsLast(Run(added, es).revisions, cid);
        OldRowsStayOthers(added, es, cid);
      }
    } else {
      AddedExists(db, add);
      LeftoverCanBeApproved(added, cid);
    }
  }

  /** The last revision row of an id, written back approved. */
  lemma ApprovedLastRow(rs: seq<Revision>, cid: nat, user: nat)
    requires RevisionsOk(rs) && LastRow(rs, cid) != 0 && rs[LastRow(rs, cid) - 1].createdBy != user
    ensures var k := LastRow(rs, cid) - 1;
      var after := rs[k := rs[k].(status := Approved, locked := true, reviewedBy := Some(user))];
      ApprovedLatest(after, cid) && LastRow(after, cid) == k + 1
  {
    var k := LastRow(rs, cid) - 1;
    var r := rs[k].(status := Approved, locked := true, reviewedBy := Some(user));
    assert ApprovedLatest(rs[k := r], cid) by { UpdateLatest(rs, k, r, cid); }
    RevCountFrame(rs, rs[k := r], cid);
  }

  /** Anybody but its author can approve the last revision row of an id. */
  lemma LastRowCanBeApproved(db: Db, cid: nat, user: nat, rid: nat)
    requires RevisionsOk(db.revisions) && rid == LastRow(db.revisions, cid) != 0
    requires db.revisions[rid - 1].createdBy != user
    ensures var after := Step(db, ApproveRevisionE(user, Engineer, rid));
      ApprovedLatest(after.revisions, cid) && LastRow(after.revisions, cid) == rid && after.calcs == db.calcs
  {
    ApproveStep(db, user, rid);
    ApprovedLastRow(db.revisions, cid, user);
  }

  lemma OneApprovalRefutes(db: Db, es: seq<Event>, after: Db, start: nat, cid: nat)
    requires Survives(db, es, cid) && Run(db, es) == after
    requires ApprovedLatest(after.revisions, cid) && LastRow(after.revisions, cid) <= start
    ensures !OnlyNewApprovals(db, start, cid)
  {
  }

  lemma ApproveStep(db: Db, user: nat, rid: nat)
    ensures Step(db, ApproveRevisionE(user, Engineer, rid)) == ApproveRevision(db, user, Engineer, rid).db
  {
  }

  /** The leftover row, approved by somebody else, counts for whoever has its id now. */
  lemma LeftoverCanBeApproved(db: Db, cid: nat)
    requires RevisionsOk(db.revisions) && Exists(db, cid) && LastRow(db.revisions, cid) != 0
    ensures !OnlyNewApprovals(db, |db.revisions|, cid)
  {
    var rid := LastRow(db.revisions, cid);
    var user := db.revisions[rid - 1].createdBy + 1;
    var approve := ApproveRevisionE(user, Engineer, rid);
    LastRowCanBeApproved(db, cid, user, rid);
    var after := Step(db, approve);
    OneRequest(db, approve, cid);
    OneApprovalRefutes(db, [approve], after, |db.revisions|, cid);
  }

  /** So on an unused id a later approval is of the calculation itself, by someone other than its owner. */
  lemma UnusedIdIsReviewed(db: Db, add: Event, es: seq<Event>)
    requires RevisionsOk(db.revisions) && IdsIncrease(db.calcs)
    requires add.AddCalcE? && Handle(db, add).code == 200
    requires LastRow(db.revisions, NextId(db.calcs)) == 0
    requires Survives(Step(db, add), es, NextId(db.calcs))
    ensures var c := Calc(NextId(db.calcs), add.user, add.project, add.inputs);
      var rs := Run(Step(db, add), es).revisions;
      ApprovedLatest(rs, c.id) ==>
        var r := Latest(rs, c.id).value; IsOf(r, c) && r.reviewedBy.Some? && r.reviewedBy.value != c.owner
  {
    var added := Step(db, add);
    var c := Calc(NextId(db.calcs), add.user, add.project, add.inputs);
    assert added.calcs == db.calcs + [c] && added.revisions == db.revisions;
    StepKeepsIncrease(db, add);
    RunKeepsRevisions(added, es);
    LatestIsLast(Run(added, es).revisions, c.id);
    OldRowsStayOthers(added, es, c.id);
    LaterRevisionsRecord(added, es, c);
  }

  /** With deletion it can fail: a new calculation can inherit the approval of a deleted one. */
  function ReuseRun(): seq<Event> {
    [CreateProjectE(1, Engineer), AddCalcE(1, Engineer, Some(1), "first"), CreateRevisionE(1, 1),
     ApproveRevisionE(2, Engineer, 1), DeleteCalcE(1, Engineer, 1), AddCalcE(1, Engineer, Some(1), "second")]
  }

  const FIRST := Calc(1, 1, Some(1), "first")
  const SECOND := Calc(1, 1, Some(1), "second")
  const FIRST_DRAFT := Revision(1, 1, FIRST, Draft, false, 1, None)
  const FIRST_APPROVED := Revision(1, 1, FIRST, Approved, true, 1, Some(2))

  /** The tables after each request of that run. */
  function ReuseStates(): seq<Db> {
    [Db([], [], [1], [], [], [], []), Db([], [], [1], [FIRST], [1], [], []),
     Db([], [], [1], [FIRST], [1], [], [FIRST_DRAFT]), Db([], [], [1], [FIRST], [1], [], [FIRST_APPROVED]),
     Db([], [], [1], [], [1], [], [FIRST_APPROVED]), Db([], [], [1], [SECOND], [1, 1], [], [FIRST_APPROVED])]
  }

  lemma ReuseBegins()
    ensures var es, dbs := ReuseRun(), ReuseStates();
      Step(EMPTY, es[0]) == dbs[0] && Step(dbs[0], es[1]) == dbs[1] && Step(dbs[1], es[2]) == dbs[2]
  {
  }

  lemma ReuseEnds()
    ensures var es, dbs := ReuseRun(), ReuseStates();
      Step(dbs[2], es[3]) == dbs[3] && Step(dbs[3], es[4]) == dbs[4] && Step(dbs[4], es[5]) == dbs[5]
  {
    OnlyCalcGoes(ReuseStates()[3], FIRST);
  }

  lemma ReuseRunEnds()
    ensures Run(EMPTY, ReuseRun()) == ReuseStates()[5]
  {
    ReuseBegins();
    ReuseEnds();
    RunIsSteps(ReuseRun(), ReuseStates());
  }

  lemma ReusedIdInheritsApproval()
    ensures var db := Run(EMPTY, ReuseRun());
      && Ready(db, 1) && db.calcs == [SECOND]
      && Latest(db.revisions, 1).value.snapshot == FIRST && FIRST.inputs != SECOND.inputs
  {
    ReuseRunEnds();
    var db := ReuseStates()[5];
    assert db.revisions[..0] == [];
    assert Latest(db.revisions, 1) == Some(FIRST_APPROVED);
    assert SECOND in db.calcs;
  }
}
