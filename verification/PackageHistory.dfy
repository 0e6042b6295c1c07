/**
 The status of a package over whole runs, and what it means for the versions minted from it.
 Activation asks for an approved package; a rollback does not.
 */
module PackageHistory {
  import opened Options
  import opened ReferenceData
  import opened ReleaseTables
  import opened VersionHistory
  import opened TraceHistory

  /** The request gives package `pid` a status. */
  predicate SetsStatus(db: Db, e: Event, pid: nat) {
    e.SetPackageStatusE? && e.pid == pid && Handle(db, e).code == 200
  }

  /** The status that the last accepted request of a run gave a package, or the one it had before. */
  function LastStatus(db: Db, es: seq<Event>, pid: nat, was: Status): Status
    decreases |es|
  {
    if es == [] then was
    else LastStatus(Step(db, es[0]), es[1..], pid, if SetsStatus(db, es[0], pid) then es[0].status.value else was)
  }

  /** A request changes nothing of a package but its status, and that only as it says. */
  lemma StepSetsStatus(db: Db, e: Event, pid: nat)
    requires 1 <= pid <= |db.packages|
    ensures |Step(db, e).packages| >= |db.packages|
    ensures Step(db, e).packages[pid - 1]
         == if SetsStatus(db, e, pid) then db.packages[pid - 1].(status := e.status.value) else db.packages[pid - 1]
  {
    match e
    case CreatePackageE(_, _, _, _) =>
    case SetPackageStatusE(_, _) =>
    case _ =>
      assert Step(db, e).packages == db.packages;
  }

  /** After any run a package is what it was, with the status it was last given. */
  lemma {:induction false} StatusIsLastSet(db: Db, es: seq<Event>, pid: nat)
    requires 1 <= pid <= |db.packages|
    ensures |Run(db, es).packages| >= |db.packages|
    ensures var p := db.packages[pid - 1];
      Run(db, es).packages[pid - 1] == p.(status := LastStatus(db, es, pid, p.status))
    decreases |es|
  {
    if es != [] {
      StepSetsStatus(db, es[0], pid);
      StatusIsLastSet(Step(db, es[0]), es[1..], pid);
    }
  }

  /** A version can be activated exactly when its package was last set to approved, and is good enough. */
  lemma ActivatableExactly(db: Db, es: seq<Event>, vid: nat)
    requires 1 <= vid <= |Run(db, es).versions|
    requires 1 <= Run(db, es).versions[vid - 1].packageId <= |db.packages|
    ensures var pid := Run(db, es).versions[vid - 1].packageId;
      var p := db.packages[pid - 1];
      ActivateVersion(Run(db, es), vid).code
      == if LastStatus(db, es, pid, p.status) == Approved && p.confidence >= 4 then 200 else 400
  {
    StatusIsLastSet(db, es, Run(db, es).versions[vid - 1].packageId);
  }

  lemma {:induction false} NotApprovedAgain(db: Db, es: seq<Event>, pid: nat, was: Status)
    requires was != Approved
    requires forall e :: e in es ==> !(e.SetPackageStatusE? && e.pid == pid && e.status == Some(Approved))
    ensures LastStatus(db, es, pid, was) != Approved
    decreases |es|
  {
    if es != [] {
      var now := if SetsStatus(db, es[0], pid) then es[0].status.value else was;
      assert es[0] in es;
      assert now != Approved;
      NotApprovedAgain(Step(db, es[0]), es[1..], pid, now);
    }
  }

  /** Once set to anything else, none of a package's versions is activated until it is approved again. */
  lemma WithdrawnStaysOut(db: Db, e: Event, es: seq<Event>, vid: nat)
    requires e.SetPackageStatusE? && Handle(db, e).code == 200 && e.status != Some(Approved)
    requires forall f :: f in es ==> !(f.SetPackageStatusE? && f.pid == e.pid && f.status == Some(Approved))
    requires 1 <= vid <= |Run(Step(db, e), es).versions|
    requires Run(Step(db, e), es).versions[vid - 1].packageId == e.pid
    ensures ActivateVersion(Run(Step(db, e), es), vid) == Reply(Run(Step(db, e), es), 400)
  {
    var after := Step(db, e);
    StepSetsStatus(db, e, e.pid);
    NotApprovedAgain(after, es, e.pid, after.packages[e.pid - 1].status);
    ActivatableExactly(after, es, vid);
  }

  // ----------------------------------------------------------- but a rollback does not ask

  lemma OrdinalIncreases(vs: seq<Version>, i: nat, j: nat)
    requires i < j < |vs| && vs[i].dataset == vs[j].dataset
    ensures Ordinal(vs, i) < Ordinal(vs, j)
  {
    CountMonotone(vs, i + 1, j, vs[j].dataset);
    CountAt(vs, j, vs[j].dataset);
  }

  lemma OrdinalInjective(vs: seq<Version>, i: nat, j: nat)
    requires i < |vs| && j < |vs| && vs[i].dataset == vs[j].dataset && Ordinal(vs, i) == Ordinal(vs, j)
    ensures i == j
  {
    if i < j { OrdinalIncreases(vs, i, j); }
    if j < i { OrdinalIncreases(vs, j, i); }
  }

  /** Version `k` is the one that rolling version `vid` back makes active. */
  ghost predicate Precedes(vs: seq<Version>, k: nat, vid: nat)
    requires k < |vs|
  {
    1 <= vid <= |vs| && vs[vid - 1].dataset == vs[k].dataset && Ordinal(vs, vid - 1) == Ordinal(vs, k) + 1
  }

  lemma RollbackTurnsOn(db: Db, vid: nat, k: nat)
    requires VersionsOk(db) && k < |db.versions| && !db.versions[k].isActive
    ensures RollbackVersion(db, vid).db.versions[k].isActive <==> Precedes(db.versions, k, vid)
  {
    if 1 <= vid <= |db.versions| {
      var d := db.versions[vid - 1].dataset;
      PrecedingVersion(db.versions, vid - 1, d);
      OrdinalBounds(db.versions, k);
      var previous := LastGood(db.versions, vid - 1, d);
      if previous.Some? && Precedes(db.versions, k, vid) { OrdinalInjective(db.versions, previous.value, k); }
    }
  }

  /** A version whose package is not approved becomes active exactly by rolling its successor back. */
  lemma RevivedExactly(db: Db, e: Event, k: nat)
    requires VersionsOk(db) && k < |db.versions| && !db.versions[k].isActive
    requires db.packages[db.versions[k].packageId - 1].status != Approved
    ensures |Step(db, e).versions| >= |db.versions|
    ensures Step(db, e).versions[k].isActive <==> e.RollbackVersionE? && Precedes(db.versions, k, e.vid)
  {
    match e
    case SetPackageStatusE(pid, s) =>
      if 1 <= pid <= |db.packages| { MintAppends(db.versions, db.packages[pid - 1], pid); }
    case ActivateVersionE(vid) =>
    case RollbackVersionE(vid) => RollbackTurnsOn(db, vid, k);
    case _ =>
      assert Step(db, e).versions == db.versions;
  }

  /** Approved twice, a package has two versions; it is rejected, and the second is rolled back. */
  function RevivingRun(): seq<Event> {
    [CreatePackageE("washer", "a", Records([]), 4), SetPackageStatusE(1, Some(Approved)),
     SetPackageStatusE(1, Some(Approved)), SetPackageStatusE(1, Some(Rejected)), RollbackVersionE(2)]
  }

  function Lot(status: Status): Package {
    Package("washer", "a", Records([]), 4, status)
  }

  function Edition(n: nat, isActive: bool): Version {
    Version("washer", VersionName(n), 1, 4, isActive)
  }

  /** The tables after each request of that run. */
  function RevivingStates(): seq<Db> {
    [EMPTY.(packages := [Lot(Draft)]),
     EMPTY.(packages := [Lot(Approved)], versions := [Edition(1, false)]),
     EMPTY.(packages := [Lot(Approved)], versions := [Edition(1, false), Edition(2, false)]),
     EMPTY.(packages := [Lot(Rejected)], versions := [Edition(1, false), Edition(2, false)]),
     EMPTY.(packages := [Lot(Rejected)], versions := [Edition(1, true), Edition(2, false)])]
  }

  lemma TwoEditions()
    ensures Mint([], Lot(Draft), 1) == [Edition(1, false)]
    ensures Mint([Edition(1, false)], Lot(Approved), 1) == [Edition(1, false), Edition(2, false)]
  {
    var one := [Edition(1, false)];
    MintAppends([], Lot(Draft), 1);
    assert one[..0] == [] && one[..1] == one && CountOf(one, "washer") == 1;
    assert Numbered(one);
    MintAppends(one, Lot(Approved), 1);
  }

  lemma EditionsMinted()
    ensures var es, dbs := RevivingRun(), RevivingStates();
      Step(EMPTY, es[0]) == dbs[0] && Step(dbs[0], es[1]) == dbs[1] && Step(dbs[1], es[2]) == dbs[2]
  {
    TwoEditions();
  }

  lemma FirstRevived()
    ensures var es, dbs := RevivingRun(), RevivingStates();
      Step(dbs[2], es[3]) == dbs[3] && Step(dbs[3], es[4]) == dbs[4]
  {
  }

  lemma RevivingRunEnds()
    ensures Run(EMPTY, RevivingRun()) == RevivingStates()[4]
  {
    EditionsMinted();
    FirstRevived();
    RunIsSteps(RevivingRun(), RevivingStates());
  }

  /** Reachable: a version becomes active after its package was rejected. */
  lemma WithdrawnCanBeRevived() returns (es: seq<Event>)
    ensures es == RevivingRun()
    ensures var db := Run(EMPTY, es);
      && |db.packages| == 1 && |db.versions| == 2 && db.packages[0].status == Rejected
      && db.versions[0].packageId == 1 && db.versions[0].isActive
  {
    es := RevivingRun();
    RevivingRunEnds();
  }
}
