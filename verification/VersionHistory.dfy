/**
 Data versions over every run: numbering without gaps, one active version per dataset, and
 rollback. The rows and flags of `data_versions` are shown to refine, for each dataset, a
 counter of minted versions and a pointer to the current one.
 */
module VersionHistory {
  import opened Options
  import opened Text
  import opened ReferenceData
  import opened ReleaseTables

  /** The place of row `i` among the versions of its dataset, counted from 1. */
  function Ordinal(vs: seq<Version>, i: nat): nat
    requires i < |vs|
  {
    CountOf(vs[..i + 1], vs[i].dataset)
  }

  ghost predicate PackagesOk(ps: seq<Package>) {
    forall i :: 0 <= i < |ps| ==> ps[i].dataset in DATASETS && ps[i].confidence <= 4 && ps[i].content.Records?
  }

  ghost predicate RowsOk(ps: seq<Package>, vs: seq<Version>) {
    forall i :: 0 <= i < |vs| ==>
      && vs[i].confidence == 4
      && 1 <= vs[i].packageId <= |ps| && ps[vs[i].packageId - 1].dataset == vs[i].dataset
  }

  /** The version numbers of every dataset are v1, v2, ... in id order. */
  ghost predicate Numbered(vs: seq<Version>) {
    forall i {:trigger Ordinal(vs, i)} :: 0 <= i < |vs| ==> vs[i].versionNo == VersionName(Ordinal(vs, i))
  }

  ghost predicate OneActive(vs: seq<Version>) {
    forall i, j :: 0 <= i < j < |vs| && vs[i].isActive && vs[j].isActive ==> vs[i].dataset != vs[j].dataset
  }

  ghost predicate VersionsOk(db: Db) {
    PackagesOk(db.packages) && RowsOk(db.packages, db.versions) && Numbered(db.versions) && OneActive(db.versions)
  }

  // ------------------------------------------------------------------ counting

  lemma {:induction false} CountFrame(vs: seq<Version>, ws: seq<Version>, d: string)
    requires |vs| == |ws| && forall i :: 0 <= i < |vs| ==> vs[i].dataset == ws[i].dataset
    ensures CountOf(vs, d) == CountOf(ws, d)
  {
    if vs != [] { CountFrame(vs[..|vs| - 1], ws[..|ws| - 1], d); }
  }

  lemma {:induction false} CountMonotone(vs: seq<Version>, i: nat, j: nat, d: string)
    requires i <= j <= |vs|
    ensures CountOf(vs[..i], d) <= CountOf(vs[..j], d)
  {
    if i < j {
      CountMonotone(vs, i, j - 1, d);
      assert vs[..j][..j - 1] == vs[..j - 1];
    }
  }

  lemma CountAt(vs: seq<Version>, i: nat, d: string)
    requires i < |vs|
    ensures CountOf(vs[..i + 1], d) == CountOf(vs[..i], d) + if vs[i].dataset == d then 1 else 0
  {
    assert vs[..i + 1][..i] == vs[..i];
  }

  lemma OrdinalBounds(vs: seq<Version>, i: nat)
    requires i < |vs|
    ensures 1 <= Ordinal(vs, i) <= CountOf(vs, vs[i].dataset)
  {
    CountAt(vs, i, vs[i].dataset);
    CountMonotone(vs, i + 1, |vs|, vs[i].dataset);
    assert vs[..|vs|] == vs;
  }

  lemma VersionNameInjective(m: nat, n: nat)
    requires VersionName(m) == VersionName(n)
    ensures m == n
  {
    assert VersionName(m)[1..] == NatToString(m) && VersionName(n)[1..] == NatToString(n);
    NatToStringInjective(m, n);
  }

  /** INSERT OR IGNORE never ignores: the freshly computed number is not in use. */
  lemma MintAppends(vs: seq<Version>, p: Package, pid: nat)
    requires Numbered(vs)
    ensures Mint(vs, p, pid)
      == vs + [Version(p.dataset, VersionName(CountOf(vs, p.dataset) + 1), pid, p.confidence, false)]
  {
    forall i | 0 <= i < |vs| && vs[i].dataset == p.dataset
      ensures vs[i].versionNo != VersionName(CountOf(vs, p.dataset) + 1)
    {
      OrdinalBounds(vs, i);
      if vs[i].versionNo == VersionName(CountOf(vs, p.dataset) + 1) {
        VersionNameInjective(Ordinal(vs, i), CountOf(vs, p.dataset) + 1);
      }
    }
  }

  // ------------------------------------------- the invariant holds over every run

  lemma OrdinalFrame(vs: seq<Version>, ws: seq<Version>, i: nat)
    requires i < |vs| <= |ws| && forall k :: 0 <= k < |vs| ==> vs[k].dataset == ws[k].dataset
    ensures Ordinal(vs, i) == Ordinal(ws, i)
  {
    CountFrame(vs[..i + 1], ws[..i + 1], vs[i].dataset);
  }

  lemma MintKeeps(ps: seq<Package>, vs: seq<Version>, pid: nat)
    requires PackagesOk(ps) && RowsOk(ps, vs) && Numbered(vs) && OneActive(vs)
    requires 1 <= pid <= |ps| && ps[pid - 1].confidence == 4
    ensures RowsOk(ps, Mint(vs, ps[pid - 1], pid))
    ensures Numbered(Mint(vs, ps[pid - 1], pid)) && OneActive(Mint(vs, ps[pid - 1], pid))
  {
    MintAppends(vs, ps[pid - 1], pid);
    AppendKeeps(ps, vs, Mint(vs, ps[pid - 1], pid)[|vs|]);
  }

  lemma AppendKeeps(ps: seq<Package>, vs: seq<Version>, v: Version)
    requires RowsOk(ps, vs) && Numbered(vs) && OneActive(vs)
    requires v.confidence == 4 && !v.isActive
    requires 1 <= v.packageId <= |ps| && ps[v.packageId - 1].dataset == v.dataset
    requires v.versionNo == VersionName(CountOf(vs, v.dataset) + 1)
    ensures RowsOk(ps, vs + [v]) && Numbered(vs + [v]) && OneActive(vs + [v])
  {
    AppendNumbered(vs, v);
    var ws := vs + [v];
    forall i | 0 <= i < |ws|
      ensures ws[i].confidence == 4 && 1 <= ws[i].packageId <= |ps| && ps[ws[i].packageId - 1].dataset == ws[i].dataset
    {
      if i < |vs| { assert ws[i] == vs[i]; }
    }
    forall i, j | 0 <= i < j < |ws| && ws[i].isActive && ws[j].isActive ensures ws[i].dataset != ws[j].dataset {
      assert ws[i] == vs[i] && ws[j] == vs[j];
    }
  }

  lemma AppendNumbered(vs: seq<Version>, v: Version)
    requires Numbered(vs) && v.versionNo == VersionName(CountOf(vs, v.dataset) + 1)
    ensures Numbered(vs + [v])
  {
    var ws := vs + [v];
    forall i | 0 <= i < |ws| ensures ws[i].versionNo == VersionName(Ordinal(ws, i)) {
      if i < |vs| {
        OrdinalFrame(vs, ws, i);
        assert ws[i] == vs[i];
      } else {
        CountAt(ws, i, ws[i].dataset);
        assert ws[..i] == vs;
      }
    }
  }

  /** Activation touches the flags only. */
  lemma SetActiveFrame(vs: seq<Version>, k: nat, i: nat)
    requires k < |vs| && i < |vs|
    ensures SetActive(vs, k)[i].(isActive := vs[i].isActive) == vs[i]
    ensures SetActive(vs, k)[i].isActive ==> i == k || (vs[i].isActive && vs[i].dataset != vs[k].dataset)
  {
  }

  lemma SetActiveKeepsRows(ps: seq<Package>, vs: seq<Version>, k: nat)
    requires RowsOk(ps, vs) && k < |vs|
    ensures RowsOk(ps, SetActive(vs, k))
  {
    var ws := SetActive(vs, k);
    forall i | 0 <= i < |ws|
      ensures ws[i].confidence == 4 && 1 <= ws[i].packageId <= |ps| && ps[ws[i].packageId - 1].dataset == ws[i].dataset
    {
      SetActiveFrame(vs, k, i);
    }
  }

  lemma SetActiveKeepsNumbers(vs: seq<Version>, k: nat)
    requires Numbered(vs) && k < |vs|
    ensures Numbered(SetActive(vs, k))
  {
    var ws := SetActive(vs, k);
    forall i | 0 <= i < |vs| ensures ws[i].dataset == vs[i].dataset && ws[i].versionNo == vs[i].versionNo {
      SetActiveFrame(vs, k, i);
    }
    forall i | 0 <= i < |ws| ensures ws[i].versionNo == VersionName(Ordinal(ws, i)) {
      OrdinalFrame(vs, ws, i);
      assert vs[i].versionNo == VersionName(Ordinal(vs, i));
    }
  }

  lemma SetActiveKeepsOne(vs: seq<Version>, k: nat)
    requires OneActive(vs) && k < |vs|
    ensures OneActive(SetActive(vs, k))
  {
    var ws := SetActive(vs, k);
    forall i, j | 0 <= i < j < |ws| && ws[i].isActive && ws[j].isActive ensures ws[i].dataset != ws[j].dataset {
      SetActiveFrame(vs, k, i);
      SetActiveFrame(vs, k, j);
    }
  }

  lemma SetActiveKeeps(ps: seq<Package>, vs: seq<Version>, k: nat)
    requires RowsOk(ps, vs) && Numbered(vs) && OneActive(vs) && k < |vs|
    ensures RowsOk(ps, SetActive(vs, k)) && Numbered(SetActive(vs, k)) && OneActive(SetActive(vs, k))
  {
    SetActiveKeepsRows(ps, vs, k);
    SetActiveKeepsNumbers(vs, k);
    SetActiveKeepsOne(vs, k);
  }

  lemma StatusKeepsVersions(db: Db, pid: nat, s: Option<Status>)
    requires VersionsOk(db)
    ensures VersionsOk(SetPackageStatus(db, pid, s).db)
  {
    var db' := SetPackageStatus(db, pid, s).db;
    if SetPackageStatus(db, pid, s).code == 200 {
      assert RowsOk(db'.packages, db.versions);
      if s.value == Approved {
        MintKeeps(db'.packages, db.versions, pid);
      }
    }
  }

  lemma RollbackKeeps(db: Db, vid: nat)
    requires VersionsOk(db) && 1 <= vid <= |db.versions|
    ensures VersionsOk(RollbackVersion(db, vid).db)
  {
    var previous := LastGood(db.versions, vid - 1, db.versions[vid - 1].dataset);
    if previous.Some? { SetActiveKeeps(db.packages, db.versions, previous.value); }
  }

  lemma ActivateKeeps(db: Db, vid: nat)
    requires VersionsOk(db)
    ensures VersionsOk(ActivateVersion(db, vid).db)
  {
    if ActivateVersion(db, vid).code == 200 { SetActiveKeeps(db.packages, db.versions, vid - 1); }
  }

  lemma StepKeepsVersions(db: Db, e: Event)
    requires VersionsOk(db)
    ensures VersionsOk(Step(db, e))
  {
    match e
    case CreatePackageE(_, _, _, _) =>
    case SetPackageStatusE(pid, s) => StatusKeepsVersions(db, pid, s);
    case ActivateVersionE(vid) =>
      ActivateKeeps(db, vid);
    case RollbackVersionE(vid) =>
      if 1 <= vid <= |db.versions| { RollbackKeeps(db, vid); }
    case _ =>
      assert Step(db, e).packages == db.packages && Step(db, e).versions == db.versions;
  }

  lemma {:induction false} RunKeepsVersions(db: Db, es: seq<Event>)
    requires VersionsOk(db)
    ensures VersionsOk(Run(db, es))
    decreases |es|
  {
    if es != [] {
      StepKeepsVersions(db, es[0]);
      RunKeepsVersions(Step(db, es[0]), es[1..]);
    }
  }

  // --------------------------------- refinement of a counter and a pointer per dataset

  /** The ordinal of the active version of a dataset, or 0. */
  function Current(vs: seq<Version>, d: string): nat {
    if vs == [] then 0
    else if vs[|vs| - 1].dataset == d && vs[|vs| - 1].isActive then CountOf(vs, d)
    else Current(vs[..|vs| - 1], d)
  }

  lemma {:induction false} CurrentOfActive(vs: seq<Version>, i: nat)
    requires OneActive(vs) && i < |vs| && vs[i].isActive
    ensures Current(vs, vs[i].dataset) == Ordinal(vs, i)
  {
    var n := |vs| - 1;
    if i == n {
      assert vs[..n + 1] == vs;
    } else {
      CurrentOfActive(vs[..n], i);
      assert vs[..n][..i + 1] == vs[..i + 1];
    }
  }

  lemma {:induction false} CurrentHasRow(vs: seq<Version>, d: string) returns (i: nat)
    requires Current(vs, d) != 0
    ensures i < |vs| && vs[i].dataset == d && vs[i].isActive && Ordinal(vs, i) == Current(vs, d)
  {
    var n := |vs| - 1;
    if vs[n].dataset == d && vs[n].isActive {
      i := n;
      assert vs[..n + 1] == vs;
    } else {
      i := CurrentHasRow(vs[..n], d);
      assert vs[..n][..i + 1] == vs[..i + 1];
    }
  }

  lemma {:induction false} CurrentFrame(vs: seq<Version>, ws: seq<Version>, d: string)
    requires |vs| == |ws|
    requires forall i :: 0 <= i < |vs| ==> vs[i].dataset == ws[i].dataset && (vs[i].dataset == d ==> vs[i] == ws[i])
    ensures Current(vs, d) == Current(ws, d)
  {
    if vs != [] {
      CurrentFrame(vs[..|vs| - 1], ws[..|ws| - 1], d);
      CountFrame(vs, ws, d);
    }
  }

  /** After `SetActive` the chosen row is its dataset's current version; other datasets keep theirs. */
  lemma SetActiveMoves(vs: seq<Version>, k: nat, d: string)
    requires OneActive(vs) && k < |vs|
    ensures Current(SetActive(vs, k), d) == if d == vs[k].dataset then Ordinal(vs, k) else Current(vs, d)
    ensures CountOf(SetActive(vs, k), d) == CountOf(vs, d)
  {
    var ws := SetActive(vs, k);
    CountFrame(vs, ws, d);
    if d == vs[k].dataset {
      CurrentOfActive(ws, k);
      OrdinalFrame(vs, ws, k);
    } else {
      CurrentFrame(vs, ws, d);
    }
  }

  /** The row `LastGood` finds is the dataset's version just before the place it looks from. */
  lemma {:induction false} LastGoodPrecedes(vs: seq<Version>, n: nat, d: string)
    requires n <= |vs| && forall i :: 0 <= i < |vs| ==> vs[i].confidence == 4
    ensures LastGood(vs, n, d).Some? <==> CountOf(vs[..n], d) != 0
    ensures LastGood(vs, n, d).Some? ==> Ordinal(vs, LastGood(vs, n, d).value) == CountOf(vs[..n], d)
  {
    if n != 0 {
      LastGoodPrecedes(vs, n - 1, d);
      CountAt(vs, n - 1, d);
    }
  }

  /** How many versions a dataset has, and which one is active (0 for none). */
  datatype Line = Line(minted: nat, current: nat)

  /** What a request may do to a line: nothing, mint, point at version `n`, or step back from version `n`. */
  datatype Move = Stay | MintOne | PointAt(n: nat) | StepBack(n: nat)

  function LineOf(db: Db, d: string): Line {
    Line(CountOf(db.versions, d), Current(db.versions, d))
  }

  function Moved(line: Line, m: Move): Line {
    match m
    case Stay => line
    case MintOne => line.(minted := line.minted + 1)
    case PointAt(n) => line.(current := n)
    case StepBack(n) => if n >= 2 then line.(current := n - 1) else line
  }

  /** The move a request makes on dataset `d`, read off the request and what it names. */
  function MoveOf(db: Db, e: Event, d: string): Move {
    match e
    case SetPackageStatusE(pid, s) =>
      if s == Some(Approved) && 1 <= pid <= |db.packages| && db.packages[pid - 1].dataset == d
         && db.packages[pid - 1].confidence == 4 then MintOne else Stay
    case ActivateVersionE(vid) =>
      if 1 <= vid <= |db.versions| && db.versions[vid - 1].dataset == d
         && 1 <= db.versions[vid - 1].packageId <= |db.packages|
         && db.packages[db.versions[vid - 1].packageId - 1].status == Approved
         && db.packages[db.versions[vid - 1].packageId - 1].confidence == 4
      then PointAt(Ordinal(db.versions, vid - 1)) else Stay
    case RollbackVersionE(vid) =>
      if 1 <= vid <= |db.versions| && db.versions[vid - 1].dataset == d
      then StepBack(Ordinal(db.versions, vid - 1)) else Stay
    case _ => Stay
  }

  lemma StatusRefines(db: Db, pid: nat, s: Option<Status>, d: string)
    requires VersionsOk(db)
    ensures LineOf(SetPackageStatus(db, pid, s).db, d) == Moved(LineOf(db, d), MoveOf(db, SetPackageStatusE(pid, s), d))
  {
    if SetPackageStatus(db, pid, s).code == 200 && s.value == Approved {
      MintAppends(db.versions, db.packages[pid - 1], pid);
      var ws := Mint(db.versions, db.packages[pid - 1], pid);
      assert ws[..|ws| - 1] == db.versions;
    }
  }

  /** Making version `k` active points its dataset's line at it and leaves all others. */
  lemma SetActivePoints(db: Db, k: nat, d: string)
    requires OneActive(db.versions) && k < |db.versions|
    ensures LineOf(db.(versions := SetActive(db.versions, k)), d)
         == if d == db.versions[k].dataset then Moved(LineOf(db, d), PointAt(Ordinal(db.versions, k)))
            else LineOf(db, d)
  {
    SetActiveMoves(db.versions, k, d);
  }

  /** When an activation is accepted. */
  predicate CanActivate(db: Db, vid: nat) {
    && 1 <= vid <= |db.versions|
    && var pid := db.versions[vid - 1].packageId;
       1 <= pid <= |db.packages| && db.packages[pid - 1].status == Approved && db.packages[pid - 1].confidence >= 4
  }

  lemma ActivateReply(db: Db, vid: nat)
    ensures ActivateVersion(db, vid).db
         == if CanActivate(db, vid) then db.(versions := SetActive(db.versions, vid - 1)) else db
  {
  }

  lemma ActivateMove(db: Db, vid: nat, d: string)
    requires PackagesOk(db.packages)
    ensures MoveOf(db, ActivateVersionE(vid), d)
         == if CanActivate(db, vid) && db.versions[vid - 1].dataset == d then PointAt(Ordinal(db.versions, vid - 1))
            else Stay
  {
    if CanActivate(db, vid) {
      var pid := db.versions[vid - 1].packageId;
      assert db.packages[pid - 1].confidence == 4;
    }
  }

  lemma ActivateRefines(db: Db, vid: nat, d: string)
    requires VersionsOk(db)
    ensures LineOf(ActivateVersion(db, vid).db, d) == Moved(LineOf(db, d), MoveOf(db, ActivateVersionE(vid), d))
  {
    ActivateReply(db, vid);
    ActivateMove(db, vid, d);
    if CanActivate(db, vid) { SetActivePoints(db, vid - 1, d); }
  }

  lemma RollbackRefinesLine(db: Db, vid: nat, d: string)
    requires VersionsOk(db)
    ensures LineOf(RollbackVersion(db, vid).db, d) == Moved(LineOf(db, d), MoveOf(db, RollbackVersionE(vid), d))
  {
    if 1 <= vid <= |db.versions| { RollbackRefines(db, vid, d); }
  }

  /** The tables refine the lines: every request moves every dataset's line exactly as `Moved` says. */
  lemma StepRefinesLine(db: Db, e: Event, d: string)
    requires VersionsOk(db)
    ensures LineOf(Step(db, e), d) == Moved(LineOf(db, d), MoveOf(db, e, d))
  {
    match e
    case SetPackageStatusE(pid, s) => StatusRefines(db, pid, s, d);
    case ActivateVersionE(vid) => ActivateRefines(db, vid, d);
    case RollbackVersionE(vid) => RollbackRefinesLine(db, vid, d);
    case _ =>
      assert Step(db, e).versions == db.versions;
  }

  /** Rolling v_n back activates v_(n-1), and is refused with 400 exactly when n is 1. */
  lemma RollbackRefines(db: Db, vid: nat, d: string)
    requires VersionsOk(db) && 1 <= vid <= |db.versions|
    ensures RollbackVersion(db, vid).code == 200 <==> Ordinal(db.versions, vid - 1) >= 2
    ensures Ordinal(db.versions, vid - 1) < 2 ==> RollbackVersion(db, vid) == Reply(db, 400)
    ensures LineOf(RollbackVersion(db, vid).db, d)
      == if d == db.versions[vid - 1].dataset then Moved(LineOf(db, d), StepBack(Ordinal(db.versions, vid - 1)))
         else LineOf(db, d)
  {
    var vs := db.versions;
    var ds := vs[vid - 1].dataset;
    PrecedingVersion(vs, vid - 1, ds);
    var previous := LastGood(vs, vid - 1, ds);
    if previous.Some? { SetActiveMoves(vs, previous.value, d); }
  }

  /** Every version is good enough, so the last good one before v_n is v_(n-1). */
  lemma PrecedingVersion(vs: seq<Version>, i: nat, d: string)
    requires i < |vs| && d == vs[i].dataset && forall j :: 0 <= j < |vs| ==> vs[j].confidence == 4
    ensures LastGood(vs, i, d).Some? <==> Ordinal(vs, i) >= 2
    ensures LastGood(vs, i, d).Some? ==> Ordinal(vs, LastGood(vs, i, d).value) == Ordinal(vs, i) - 1
  {
    LastGoodPrecedes(vs, i, d);
    CountAt(vs, i, d);
  }

  /** Roll back the active version of a dataset `n` times. */
  function RollbackTimes(db: Db, d: string, n: nat): Db
    decreases n
  {
    if n == 0 then db
    else
      var before := RollbackTimes(db, d, n - 1);
      RollbackVersion(before, ActiveId(before.versions, d)).db
  }

  /** The id of the active version of a dataset, or 0. */
  function ActiveId(vs: seq<Version>, d: string): nat {
    if vs == [] then 0
    else if vs[|vs| - 1].dataset == d && vs[|vs| - 1].isActive then |vs|
    else ActiveId(vs[..|vs| - 1], d)
  }

  lemma {:induction false} ActiveIdFindsCurrent(vs: seq<Version>, d: string)
    requires Current(vs, d) != 0
    ensures 1 <= ActiveId(vs, d) <= |vs| && vs[ActiveId(vs, d) - 1].dataset == d
    ensures Ordinal(vs, ActiveId(vs, d) - 1) == Current(vs, d)
  {
    var n := |vs| - 1;
    if vs[n].dataset == d && vs[n].isActive {
      assert vs[..n + 1] == vs;
    } else {
      ActiveIdFindsCurrent(vs[..n], d);
      assert vs[..n][..ActiveId(vs[..n], d)] == vs[..ActiveId(vs[..n], d)];
    }
  }

  /** From active version v_j, the n-th rollback leaves v_(j-n) active, so the (j-1)-th leaves v1. */
  lemma {:induction false} RollbackChain(db: Db, d: string, n: nat)
    requires VersionsOk(db) && n < Current(db.versions, d)
    ensures VersionsOk(RollbackTimes(db, d, n))
    ensures Current(RollbackTimes(db, d, n).versions, d) == Current(db.versions, d) - n
  {
    if n != 0 {
      RollbackChain(db, d, n - 1);
      RollbackActive(RollbackTimes(db, d, n - 1), d);
    }
  }

  lemma RollbackActive(db: Db, d: string)
    requires VersionsOk(db) && Current(db.versions, d) != 0
    ensures VersionsOk(RollbackVersion(db, ActiveId(db.versions, d)).db)
    ensures Current(db.versions, d) == 1 ==> RollbackVersion(db, ActiveId(db.versions, d)) == Reply(db, 400)
    ensures Current(db.versions, d) > 1 ==>
      && RollbackVersion(db, ActiveId(db.versions, d)).code == 200
      && LineOf(RollbackVersion(db, ActiveId(db.versions, d)).db, d).current == Current(db.versions, d) - 1
  {
    ActiveIdFindsCurrent(db.versions, d);
    RollbackRefines(db, ActiveId(db.versions, d), d);
    RollbackKeeps(db, ActiveId(db.versions, d));
  }

  /** A rollback from v1 is refused and changes nothing; every one before it on the chain succeeds. */
  lemma RollbackChainEnds(db: Db, d: string, n: nat)
    requires VersionsOk(db) && n < Current(db.versions, d)
    ensures var last := RollbackTimes(db, d, n);
      var reply := RollbackVersion(last, ActiveId(last.versions, d));
      if n + 1 == Current(db.versions, d) then reply == Reply(last, 400) else reply.code == 200
  {
    RollbackChain(db, d, n);
    RollbackActive(RollbackTimes(db, d, n), d);
  }

  // ------------------------------------------------------------- dataset coverage

  ghost predicate Covered(vs: seq<Version>) {
    forall d :: d in DATASETS ==> Current(vs, d) != 0
  }

  /** Once a dataset has an active version it has one ever after, so coverage is never lost. */
  lemma {:induction false} ActiveForever(db: Db, es: seq<Event>, d: string)
    requires VersionsOk(db) && Current(db.versions, d) != 0
    ensures Current(Run(db, es).versions, d) != 0
    decreases |es|
  {
    if es != [] {
      var db' := Step(db, es[0]);
      StepKeepsVersions(db, es[0]);
      StepRefinesLine(db, es[0], d);
      if Current(db'.versions, d) == 0 {
        match MoveOf(db, es[0], d)
        case PointAt(n) => OrdinalBounds(db.versions, es[0].vid - 1);
        case _ =>
      }
      ActiveForever(db', es[1..], d);
    }
  }

  lemma CoverageForever(db: Db, es: seq<Event>)
    requires VersionsOk(db) && Covered(db.versions)
    ensures Covered(Run(db, es).versions)
  {
    forall d | d in DATASETS ensures Current(Run(db, es).versions, d) != 0 {
      ActiveForever(db, es, d);
    }
  }
}
