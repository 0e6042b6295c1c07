/**
 The data trace of a calculation: which versions were active when it was recorded. `add`
 commits the calculation and its trace separately, and other requests may run in between.
 */
module TraceHistory {
  import opened Options
  import opened Sorting
  import opened Text
  import opened ReferenceData
  import opened ReleaseTables
  import opened VersionHistory
  import opened VersionSignature

  /** SELECT dataset, version_no FROM calculation_data_trace WHERE calculation_id = cid, in id order. */
  function TracePairs(ts: seq<Trace>, cid: nat): seq<Pair> {
    if ts == [] then []
    else
      var last := ts[|ts| - 1];
      TracePairs(ts[..|ts| - 1], cid) + if last.calcId == cid then [(last.dataset, last.versionNo)] else []
  }

  /** The signature a release package prints for a calculation. */
  function PrintedSignature(db: Db, cid: nat): Option<string> {
    SignatureOf(TracePairs(db.traces, cid))
  }

  ghost predicate TracesReadable(ts: seq<Trace>) {
    forall t :: t in ts ==> Readable((t.dataset, t.versionNo))
  }

  lemma {:induction false} TracePairsConcat(ts: seq<Trace>, us: seq<Trace>, cid: nat)
    ensures TracePairs(ts + us, cid) == TracePairs(ts, cid) + TracePairs(us, cid)
  {
    if us == [] {
      assert ts + us == ts;
    } else {
      assert (ts + us)[..|ts + us| - 1] == ts + us[..|us| - 1];
      TracePairsConcat(ts, us[..|us| - 1], cid);
    }
  }

  lemma {:induction false} TracesOfPairs(vs: seq<Version>, cid: nat, other: nat)
    ensures TracePairs(TracesOf(vs, cid), other) == if other == cid then ActivePairs(vs) else []
  {
    if vs != [] {
      var n := |vs|;
      TracesOfPairs(vs[..n - 1], cid, other);
      if vs[n - 1].isActive {
        var row := Trace(cid, vs[n - 1].dataset, n, vs[n - 1].versionNo, vs[n - 1].packageId);
        TracePairsConcat(TracesOf(vs[..n - 1], cid), [row], other);
        assert [row][..0] == [];
        assert TracePairs([row], other) == if other == cid then [(row.dataset, row.versionNo)] else [];
      } else {
        assert TracesOf(vs, cid) == TracesOf(vs[..n - 1], cid);
      }
    }
  }

  lemma {:induction false} TracesOfMember(vs: seq<Version>, cid: nat, t: Trace)
    requires t in TracesOf(vs, cid)
    ensures t.calcId == cid && (t.dataset, t.versionNo) in ActivePairs(vs)
  {
    var n := |vs|;
    if t in TracesOf(vs[..n - 1], cid) { TracesOfMember(vs[..n - 1], cid, t); }
  }

  lemma {:induction false} TracePairsReadable(ts: seq<Trace>, cid: nat)
    requires TracesReadable(ts)
    ensures forall p :: p in TracePairs(ts, cid) ==> Readable(p)
  {
    if ts != [] { TracePairsReadable(ts[..|ts| - 1], cid); }
  }

  /** Signatures of readable pairs differ when their numbers of pairs do. */
  lemma SignatureCounts(ps: seq<Pair>, qs: seq<Pair>)
    requires SignatureOf(ps) == SignatureOf(qs)
    requires (forall p :: p in ps ==> Readable(p)) && forall q :: q in qs ==> Readable(q)
    ensures |ps| == |qs|
  {
    SamePermutation(ps, Sort(ps, PairLe()));
    SamePermutation(qs, Sort(qs, PairLe()));
    ReadRender(Sort(ps, PairLe()));
    ReadRender(Sort(qs, PairLe()));
  }

  // --------------------------------------------------------- writing the trace

  lemma WriteTracePairs(db: Db, k: nat, cid: nat)
    requires k < |db.pending|
    ensures TracePairs(WriteTrace(db, k).db.traces, cid)
      == TracePairs(db.traces, cid) + if cid == db.pending[k] then ActivePairs(db.versions) else []
  {
    TracePairsConcat(db.traces, TracesOf(db.versions, db.pending[k]), cid);
    TracesOfPairs(db.versions, db.pending[k], cid);
  }

  /** The trace just written prints the active signature exactly when the id carried no trace before. */
  lemma WriteTraceExactly(db: Db, k: nat)
    requires VersionsOk(db) && TracesReadable(db.traces) && k < |db.pending|
    ensures PrintedSignature(WriteTrace(db, k).db, db.pending[k]) == CertificateSignature(db)
      <==> TracePairs(db.traces, db.pending[k]) == []
  {
    var cid := db.pending[k];
    WriteTracePairs(db, k, cid);
    var before, active := TracePairs(db.traces, cid), ActivePairs(db.versions);
    if before == [] {
      assert before + active == active;
    } else if SignatureOf(before + active) == SignatureOf(active) {
      TracePairsReadable(db.traces, cid);
      ActivePairsReadable(db);
      SignatureCounts(before + active, active);
    }
  }

  lemma StepKeepsReadable(db: Db, e: Event)
    requires VersionsOk(db) && TracesReadable(db.traces)
    ensures TracesReadable(Step(db, e).traces)
  {
    match e
    case WriteTraceE(k) =>
      if k < |db.pending| {
        ActivePairsReadable(db);
        forall t | t in TracesOf(db.versions, db.pending[k]) ensures Readable((t.dataset, t.versionNo)) {
          TracesOfMember(db.versions, db.pending[k], t);
        }
      }
    case _ =>
      assert Step(db, e).traces == db.traces;
  }

  lemma {:induction false} RunKeepsReadable(db: Db, es: seq<Event>)
    requires VersionsOk(db) && TracesReadable(db.traces)
    ensures VersionsOk(Run(db, es)) && TracesReadable(Run(db, es).traces)
    decreases |es|
  {
    if es != [] {
      StepKeepsVersions(db, es[0]);
      StepKeepsReadable(db, es[0]);
      RunKeepsReadable(Step(db, es[0]), es[1..]);
    }
  }

  /** The order of the calculation rows is the order of their ids. */
  ghost predicate IdsIncrease(calcs: seq<Calc>) {
    forall i, j :: 0 <= i < j < |calcs| ==> calcs[i].id < calcs[j].id
  }

  lemma {:induction false} FilterIncreases(calcs: seq<Calc>, p: Calc -> bool)
    requires IdsIncrease(calcs)
    ensures IdsIncrease(Filter(calcs, p))
  {
    if calcs != [] {
      FilterIncreases(calcs[1..], p);
      var rest := Filter(calcs[1..], p);
      forall i | 0 <= i < |rest| ensures calcs[0].id < rest[i].id {
        FilterMember(calcs[1..], p, rest[i]);
      }
    }
  }

  lemma StepKeepsIncrease(db: Db, e: Event)
    requires IdsIncrease(db.calcs)
    ensures IdsIncrease(Step(db, e).calcs)
  {
    match e
    case AddCalcE(_, _, _, _) =>
    case DeleteCalcE(u, r, cid) => FilterIncreases(db.calcs, (c: Calc) => !(c.id == cid && c.owner == u));
    case ClearCalcsE(u, r) => FilterIncreases(db.calcs, (c: Calc) => c.owner != u);
    case _ =>
      assert Step(db, e).calcs == db.calcs;
  }

  // ------------------------------------------------ a calculation that is not deleted

  predicate Exists(db: Db, cid: nat) {
    FindCalc(db.calcs, cid).Some?
  }

  /** The calculation is there after each request of the run. */
  ghost predicate Survives(db: Db, es: seq<Event>, cid: nat)
    decreases |es|
  {
    Exists(db, cid) && (es != [] ==> Survives(Step(db, es[0]), es[1..], cid))
  }

  lemma WritePending(db: Db, k: nat, cid: nat)
    requires k < |db.pending|
    ensures multiset(WriteTrace(db, k).db.pending)[cid]
      == multiset(db.pending)[cid] - if cid == db.pending[k] then 1 else 0
    ensures cid != db.pending[k] ==> TracePairs(WriteTrace(db, k).db.traces, cid) == TracePairs(db.traces, cid)
  {
    WriteTracePairs(db, k, cid);
    CountWithout(db.pending, k, cid);
  }

  lemma CountWithout(xs: seq<nat>, k: nat, x: nat)
    requires k < |xs|
    ensures multiset(xs[..k] + xs[k + 1..])[x] == multiset(xs)[x] - if x == xs[k] then 1 else 0
  {
    assert xs == xs[..k] + [xs[k]] + xs[k + 1..];
  }

  lemma AddPending(db: Db, user: nat, role: Role, project: Option<nat>, inputs: string, cid: nat)
    requires Exists(db, cid)
    ensures var after := AddCalc(db, user, role, project, inputs).db;
      after.traces == db.traces && multiset(after.pending)[cid] == multiset(db.pending)[cid]
  {
    assert NextId(db.calcs) > cid;
    assert AddCalc(db, user, role, project, inputs).db.pending <= db.pending + [NextId(db.calcs)];
  }

  /** A request can bring `cid` into `pending` only by giving it to a new calculation. */
  lemma StepPending(db: Db, e: Event, cid: nat)
    requires Exists(db, cid)
    ensures multiset(Step(db, e).pending)[cid] <= multiset(db.pending)[cid]
    ensures TracePairs(Step(db, e).traces, cid) != TracePairs(db.traces, cid) ==>
      multiset(Step(db, e).pending)[cid] < multiset(db.pending)[cid]
  {
    match e
    case AddCalcE(u, r, p, i) =>
      AddPending(db, u, r, p, i, cid);
    case WriteTraceE(k) =>
      if k < |db.pending| { WritePending(db, k, cid); }
    case _ =>
      assert Step(db, e).pending == db.pending && Step(db, e).traces == db.traces;
  }

  /** While its id waits for one trace only, nobody else writes under it. */
  lemma {:induction false} WaitingUntouched(db: Db, es: seq<Event>, cid: nat)
    requires Survives(db, es, cid) && multiset(db.pending)[cid] <= 1
    requires multiset(Run(db, es).pending)[cid] == multiset(db.pending)[cid]
    ensures TracePairs(Run(db, es).traces, cid) == TracePairs(db.traces, cid)
    ensures Exists(Run(db, es), cid)
    decreases |es|
  {
    if es != [] {
      var db' := Step(db, es[0]);
      StepPending(db, es[0], cid);
      PendingShrinks(db', es[1..], cid);
      WaitingUntouched(db', es[1..], cid);
    }
  }

  lemma {:induction false} PendingShrinks(db: Db, es: seq<Event>, cid: nat)
    requires Survives(db, es, cid)
    ensures multiset(Run(db, es).pending)[cid] <= multiset(db.pending)[cid]
    decreases |es|
  {
    if es != [] {
      StepPending(db, es[0], cid);
      PendingShrinks(Step(db, es[0]), es[1..], cid);
    }
  }

  // ----------------------------------------------- when what is printed can still change

  /** A run of one request that leaves the calculation there. */
  lemma OneRequest(db: Db, e: Event, cid: nat)
    requires Exists(db, cid) && Exists(Step(db, e), cid)
    ensures Survives(db, [e], cid) && Run(db, [e]) == Step(db, e)
  {
    assert [e][1..] == [];
  }

  lemma RequestThenRun(db: Db, e: Event, fs: seq<Event>, cid: nat)
    requires Exists(db, cid) && Survives(Step(db, e), fs, cid)
    ensures Survives(db, [e] + fs, cid) && Run(db, [e] + fs) == Run(Step(db, e), fs)
  {
    assert ([e] + fs)[1..] == fs;
  }

  /** Whatever happens while the calculation survives, the same signature is printed for it. */
  ghost predicate PrintStays(db: Db, cid: nat) {
    forall fs {:trigger Run(db, fs)} :: Survives(db, fs, cid) ==>
      PrintedSignature(Run(db, fs), cid) == PrintedSignature(db, cid)
  }

  /** A request that leaves the calculation there hands that on. */
  lemma StaysAfter(db: Db, e: Event, cid: nat)
    requires PrintStays(db, cid) && Exists(db, cid) && Exists(Step(db, e), cid)
    ensures PrintStays(Step(db, e), cid)
    ensures PrintedSignature(Step(db, e), cid) == PrintedSignature(db, cid)
  {
    OneRequest(db, e, cid);
    assert PrintedSignature(Run(db, [e]), cid) == PrintedSignature(db, cid);
    forall fs | Survives(Step(db, e), fs, cid)
      ensures PrintedSignature(Run(Step(db, e), fs), cid) == PrintedSignature(Step(db, e), cid)
    {
      RequestThenRun(db, e, fs, cid);
      assert PrintedSignature(Run(db, [e] + fs), cid) == PrintedSignature(db, cid);
    }
  }

  /** A content hash that no stored package has. */
  function UnusedHash(ps: seq<Package>): (h: string)
    ensures h != [] && forall p :: p in ps ==> |p.hash| < |h|
  {
    if ps == [] then "0"
    else
      var last := ps[|ps| - 1];
      assert forall p :: p in ps ==> p in ps[..|ps| - 1] || p == last;
      UnusedHash(ps[..|ps| - 1]) + last.hash
  }

  /** The tables the printed signatures and the unfinished adds are in. */
  predicate SameWork(db: Db, after: Db) {
    after.calcs == db.calcs && after.pending == db.pending && after.traces == db.traces
  }

  lemma NewPackage(db: Db) returns (e: Event)
    ensures Step(db, e) == db.(packages := db.packages
                                           + [Package("washer", UnusedHash(db.packages), Records([]), 4, Draft)])
  {
    e := CreatePackageE("washer", UnusedHash(db.packages), Records([]), 4);
    forall i | 0 <= i < |db.packages| ensures db.packages[i].hash != UnusedHash(db.packages) {
      assert db.packages[i] in db.packages;
    }
  }

  lemma ApprovedPackage(db: Db) returns (e: Event)
    requires VersionsOk(db) && db.packages != [] && db.packages[|db.packages| - 1].confidence == 4
    ensures var n, after := |db.packages|, Step(db, e);
      && SameWork(db, after)
      && |after.packages| == n && after.packages[n - 1].status == Approved && after.packages[n - 1].confidence == 4
      && |after.versions| == |db.versions| + 1 && after.versions[|db.versions|].packageId == n
  {
    var n := |db.packages|;
    e := SetPackageStatusE(n, Some(Approved));
    MintAppends(db.versions, db.packages[n - 1], n);
  }

  lemma ActivatedVersion(db: Db) returns (e: Event)
    requires db.packages != [] && db.versions != []
    requires var n := |db.packages|; db.packages[n - 1].status == Approved && db.packages[n - 1].confidence == 4
    requires db.versions[|db.versions| - 1].packageId == |db.packages|
    ensures SameWork(db, Step(db, e)) && ActivePairs(Step(db, e).versions) != []
  {
    e := ActivateVersionE(|db.versions|);
  }

  lemma RequestKeepsStay(db: Db, e: Event, cid: nat)
    requires VersionsOk(db) && Exists(db, cid) && PrintStays(db, cid) && SameWork(db, Step(db, e))
    ensures VersionsOk(Step(db, e)) && Exists(Step(db, e), cid) && PrintStays(Step(db, e), cid)
  {
    StepKeepsVersions(db, e);
    StaysAfter(db, e, cid);
  }

  /** Three requests bring a version into effect without touching a calculation. */
  lemma SomethingActive(db: Db, cid: nat) returns (after: Db)
    requires VersionsOk(db) && Exists(db, cid) && PrintStays(db, cid)
    ensures VersionsOk(after) && Exists(after, cid) && PrintStays(after, cid)
    ensures SameWork(db, after) && ActivePairs(after.versions) != []
  {
    var create := NewPackage(db);
    RequestKeepsStay(db, create, cid);
    var created := Step(db, create);
    var approve := ApprovedPackage(created);
    RequestKeepsStay(created, approve, cid);
    var approved := Step(created, approve);
    var activate := ActivatedVersion(approved);
    RequestKeepsStay(approved, activate, cid);
    after := Step(approved, activate);
  }

  /** Traces that are added change what is printed. */
  lemma WriteReprints(db: Db, k: nat)
    requires VersionsOk(db) && TracesReadable(db.traces) && k < |db.pending| && ActivePairs(db.versions) != []
    ensures PrintedSignature(WriteTrace(db, k).db, db.pending[k]) != PrintedSignature(db, db.pending[k])
  {
    var cid := db.pending[k];
    WriteTracePairs(db, k, cid);
    var before, active := TracePairs(db.traces, cid), ActivePairs(db.versions);
    if SignatureOf(before + active) == SignatureOf(before) {
      TracePairsReadable(db.traces, cid);
      ActivePairsReadable(db);
      SignatureCounts(before + active, before);
    }
  }

  lemma WriteStep(db: Db, k: nat)
    ensures Step(db, WriteTraceE(k)) == WriteTrace(db, k).db && Step(db, WriteTraceE(k)).calcs == db.calcs
  {
  }

  lemma WriteEndsStay(db: Db, k: nat)
    requires VersionsOk(db) && TracesReadable(db.traces) && ActivePairs(db.versions) != []
    requires k < |db.pending| && Exists(db, db.pending[k])
    ensures !PrintStays(db, db.pending[k])
  {
    if PrintStays(db, db.pending[k]) {
      WriteStep(db, k);
      WriteReprints(db, k);
      StaysAfter(db, WriteTraceE(k), db.pending[k]);
      assert false;
    }
  }

  lemma WaitingReprints(db: Db, k: nat)
    requires VersionsOk(db) && TracesReadable(db.traces)
    requires k < |db.pending| && Exists(db, db.pending[k])
    ensures !PrintStays(db, db.pending[k])
  {
    var cid := db.pending[k];
    if PrintStays(db, cid) {
      var after := SomethingActive(db, cid);
      WriteEndsStay(after, k);
      assert false;
    }
  }

  /** What is printed for a calculation never changes exactly when no unfinished `add` holds its id. */
  lemma PrintStaysExactly(db: Db, cid: nat)
    requires VersionsOk(db) && TracesReadable(db.traces) && Exists(db, cid)
    ensures PrintStays(db, cid) <==> cid !in db.pending
  {
    if cid in db.pending {
      var k :| 0 <= k < |db.pending| && db.pending[k] == cid;
      WaitingReprints(db, k);
    } else {
      forall fs | Survives(db, fs, cid) ensures PrintedSignature(Run(db, fs), cid) == PrintedSignature(db, cid) {
        PendingShrinks(db, fs, cid);
        WaitingUntouched(db, fs, cid);
      }
    }
  }

  /** So a trace just written is the last word exactly when no other unfinished `add` holds the id. */
  lemma PrintedForever(db: Db, k: nat)
    requires VersionsOk(db) && TracesReadable(db.traces)
    requires k < |db.pending| && Exists(db, db.pending[k])
    ensures PrintStays(WriteTrace(db, k).db, db.pending[k]) <==> multiset(db.pending)[db.pending[k]] == 1
  {
    StepKeepsVersions(db, WriteTraceE(k));
    StepKeepsReadable(db, WriteTraceE(k));
    WritePending(db, k, db.pending[k]);
    var written := WriteTrace(db, k).db;
    assert db.pending[k] in written.pending <==> db.pending[k] in multiset(written.pending);
    PrintStaysExactly(written, db.pending[k]);
  }

  // ------------------------------------------------ one `add`, from its first commit on

  /** If the run `es` leads to a write under the id, what is printed after `fs` was active at that write. */
  ghost predicate FaithfulWrite(added: Db, cid: nat, es: seq<Event>, k: nat, fs: seq<Event>) {
    var atWrite := Run(added, es);
    Survives(added, es, cid) && k < |atWrite.pending| && atWrite.pending[k] == cid
    && Survives(WriteTrace(atWrite, k).db, fs, cid) ==>
      PrintedSignature(Run(WriteTrace(atWrite, k).db, fs), cid) == CertificateSignature(atWrite)
  }

  /** With any requests before a write under the id, and any after it. */
  ghost predicate AlwaysFaithful(added: Db, cid: nat) {
    forall es, k: nat, fs :: FaithfulWrite(added, cid, es, k, fs)
  }

  lemma AddedExists(db: Db, add: Event)
    requires add.AddCalcE? && Handle(db, add).code == 200
    ensures var added, cid := Step(db, add), NextId(db.calcs);
      && Exists(added, cid) && added.pending == db.pending + [cid]
      && added.traces == db.traces && added.revisions == db.revisions
  {
    var c := Calc(NextId(db.calcs), add.user, add.project, add.inputs);
    assert Step(db, add).calcs == db.calcs + [c];
    assert c in Step(db, add).calcs;
  }

  lemma AloneWaits(added: Db, es: seq<Event>, cid: nat)
    requires VersionsOk(added) && TracesReadable(added.traces)
    requires multiset(added.pending)[cid] == 1 && Survives(added, es, cid) && cid in Run(added, es).pending
    ensures var atWrite := Run(added, es);
      && VersionsOk(atWrite) && TracesReadable(atWrite.traces) && Exists(atWrite, cid)
      && TracePairs(atWrite.traces, cid) == TracePairs(added.traces, cid) && multiset(atWrite.pending)[cid] == 1
  {
    RunKeepsReadable(added, es);
    PendingShrinks(added, es, cid);
    assert cid in multiset(Run(added, es).pending);
    WaitingUntouched(added, es, cid);
  }

  /** While nobody else holds the id, one write is faithful exactly when the id carried no trace rows. */
  lemma LoneWriteExactly(added: Db, cid: nat, es: seq<Event>, k: nat, fs: seq<Event>)
    requires VersionsOk(added) && TracesReadable(added.traces) && multiset(added.pending)[cid] == 1
    requires Survives(added, es, cid) && k < |Run(added, es).pending| && Run(added, es).pending[k] == cid
    requires Survives(WriteTrace(Run(added, es), k).db, fs, cid)
    ensures FaithfulWrite(added, cid, es, k, fs) <==> TracePairs(added.traces, cid) == []
  {
    var atWrite := Run(added, es);
    AloneWaits(added, es, cid);
    WriteTraceExactly(atWrite, k);
    PrintedForever(atWrite, k);
    var written := WriteTrace(atWrite, k).db;
    assert PrintedSignature(Run(written, fs), cid) == PrintedSignature(written, cid);
  }

  /** The own trace, written at once, shows both ways to fail: rows left behind, another `add` to come. */
  lemma FaithfulMeansAlone(added: Db, cid: nat, k: nat)
    requires VersionsOk(added) && TracesReadable(added.traces) && Exists(added, cid)
    requires k < |added.pending| && added.pending[k] == cid && AlwaysFaithful(added, cid)
    ensures TracePairs(added.traces, cid) == [] && multiset(added.pending)[cid] == 1
  {
    var written := WriteTrace(added, k).db;
    assert FaithfulWrite(added, cid, [], k, []);
    assert PrintedSignature(written, cid) == CertificateSignature(added);
    WriteTraceExactly(added, k);
    forall fs | Survives(written, fs, cid)
      ensures PrintedSignature(Run(written, fs), cid) == PrintedSignature(written, cid)
    {
      assert FaithfulWrite(added, cid, [], k, fs);
    }
    PrintedForever(added, k);
  }

  /**
   One `add` from its first commit to its second and beyond: over every run, what later release
   packages print for the calculation is the signature active at the instant a trace was read for
   it, exactly when the id it was given carries no trace rows and no unfinished `add` holds it.
   */
  lemma AddIsFaithfulExactly(db: Db, add: Event)
    requires VersionsOk(db) && TracesReadable(db.traces)
    requires add.AddCalcE? && Handle(db, add).code == 200
    ensures AlwaysFaithful(Step(db, add), NextId(db.calcs))
       <==> TracePairs(db.traces, NextId(db.calcs)) == [] && NextId(db.calcs) !in db.pending
  {
    var added, cid := Step(db, add), NextId(db.calcs);
    AddedExists(db, add);
    StepKeepsVersions(db, add);
    assert multiset(added.pending)[cid] == 1 <==> cid !in db.pending;
    if AlwaysFaithful(added, cid) { FaithfulMeansAlone(added, cid, |db.pending|); }
    if TracePairs(db.traces, cid) == [] && cid !in db.pending {
      forall es, k: nat, fs ensures FaithfulWrite(added, cid, es, k, fs) {
        if Survives(added, es, cid) && k < |Run(added, es).pending| && Run(added, es).pending[k] == cid
           && Survives(WriteTrace(Run(added, es), k).db, fs, cid)
        {
          LoneWriteExactly(added, cid, es, k, fs);
        }
      }
    }
  }

  /** The second condition is no idle one: a deletion between two commits leaves an id that is held. */
  lemma HeldIdIsGivenOut()
    ensures var db := Run(EMPTY, [AddCalcE(1, Engineer, None, "a"), DeleteCalcE(1, Engineer, 1)]);
      && db.traces == [] && db.pending == [1] && NextId(db.calcs) == 1
      && forall inputs :: !AlwaysFaithful(Step(db, AddCalcE(1, Engineer, None, inputs)), 1)
  {
    var es := [AddCalcE(1, Engineer, None, "a"), DeleteCalcE(1, Engineer, 1)];
    var c := Calc(1, 1, None, "a");
    var one, two := EMPTY.(calcs := [c], pending := [1]), EMPTY.(pending := [1]);
    assert Step(EMPTY, es[0]) == one;
    OnlyCalcGoes(one, c);
    assert Step(one, es[1]) == two;
    RunIsSteps(es, [one, two]);
    forall inputs ensures !AlwaysFaithful(Step(two, AddCalcE(1, Engineer, None, inputs)), 1) {
      AddIsFaithfulExactly(two, AddCalcE(1, Engineer, None, inputs));
    }
  }

  lemma OnlyCalcGoes(db: Db, c: Calc)
    requires db.calcs == [c]
    ensures DeleteCalc(db, c.owner, Engineer, c.id) == Reply(db.(calcs := []), 200)
  {
    var user, cid := c.owner, c.id;
    assert db.calcs[1..] == [];
    assert Filter(db.calcs, (k: Calc) => !(k.id == cid && k.owner == user)) == [];
  }

  // ------------------------------------------------------------- runs without deletion

  predicate Deletes(e: Event) {
    e.DeleteCalcE? || e.ClearCalcsE?
  }

  /** Ids are 1, 2, ... in order, and each is traced once, after it is given out. */
  ghost predicate Fresh(db: Db) {
    && (forall i :: 0 <= i < |db.calcs| ==> db.calcs[i].id == i + 1)
    && Distinct(db.pending)
    && (forall c :: c in db.pending ==> 1 <= c <= |db.calcs|)
    && (forall t :: t in db.traces ==> 1 <= t.calcId <= |db.calcs| && t.calcId !in db.pending)
  }

  lemma {:induction false} NextIdFresh(calcs: seq<Calc>)
    requires forall i :: 0 <= i < |calcs| ==> calcs[i].id == i + 1
    ensures NextId(calcs) == |calcs| + 1
  {
    if calcs != [] { NextIdFresh(calcs[..|calcs| - 1]); }
  }

  lemma RemoveAt<T(!new)>(xs: seq<T>, k: nat)
    requires k < |xs| && Distinct(xs)
    ensures Distinct(xs[..k] + xs[k + 1..])
    ensures forall x :: x in xs[..k] + xs[k + 1..] ==> x in xs && x != xs[k]
  {
  }

  lemma WriteKeepsFresh(db: Db, k: nat)
    requires Fresh(db) && k < |db.pending|
    ensures Fresh(WriteTrace(db, k).db)
  {
    var cid := db.pending[k];
    var after := WriteTrace(db, k).db;
    RemoveAt(db.pending, k);
    assert cid in db.pending;
    forall c | c in after.pending ensures 1 <= c <= |after.calcs| { assert c in db.pending; }
    forall t | t in after.traces ensures 1 <= t.calcId <= |db.calcs| && t.calcId !in after.pending {
      if t !in db.traces { TracesOfMember(db.versions, cid, t); }
    }
  }

  lemma AddKeepsFresh(db: Db, user: nat, role: Role, project: Option<nat>, inputs: string)
    requires Fresh(db)
    ensures Fresh(AddCalc(db, user, role, project, inputs).db)
    ensures |db.calcs| <= |AddCalc(db, user, role, project, inputs).db.calcs|
  {
    NextIdFresh(db.calcs);
    var id := NextId(db.calcs);
    assert id !in db.pending;
    assert Distinct(db.pending + [id]);
  }

  lemma StepKeepsFresh(db: Db, e: Event)
    requires Fresh(db) && !Deletes(e)
    ensures Fresh(Step(db, e)) && |db.calcs| <= |Step(db, e).calcs|
  {
    match e
    case AddCalcE(u, r, p, i) =>
      AddKeepsFresh(db, u, r, p, i);
    case WriteTraceE(k) =>
      if k < |db.pending| { WriteKeepsFresh(db, k); }
    case DeleteCalcE(_, _, _) =>
    case ClearCalcsE(_, _) =>
    case _ =>
      var db' := Step(db, e);
      assert db'.calcs == db.calcs && db'.pending == db.pending && db'.traces == db.traces;
  }

  lemma {:induction false} RunKeepsFresh(db: Db, es: seq<Event>)
    requires Fresh(db) && forall e :: e in es ==> !Deletes(e)
    ensures Fresh(Run(db, es)) && |db.calcs| <= |Run(db, es).calcs|
    decreases |es|
  {
    if es != [] {
      StepKeepsFresh(db, es[0]);
      RunKeepsFresh(Step(db, es[0]), es[1..]);
    }
  }

  lemma {:induction false} FreshSurvives(db: Db, es: seq<Event>, cid: nat)
    requires Fresh(db) && 1 <= cid <= |db.calcs| && forall e :: e in es ==> !Deletes(e)
    ensures Survives(db, es, cid)
    decreases |es|
  {
    assert db.calcs[cid - 1].id == cid;
    if es != [] {
      StepKeepsFresh(db, es[0]);
      FreshSurvives(Step(db, es[0]), es[1..], cid);
    }
  }

  lemma {:induction false} NoTraceNoPairs(ts: seq<Trace>, cid: nat)
    requires forall t :: t in ts ==> t.calcId != cid
    ensures TracePairs(ts, cid) == []
  {
    if ts != [] { NoTraceNoPairs(ts[..|ts| - 1], cid); }
  }

  lemma FreshWriteIsFaithful(db: Db, k: nat, fs: seq<Event>)
    requires VersionsOk(db) && TracesReadable(db.traces) && Fresh(db)
    requires k < |db.pending| && forall e :: e in fs ==> !Deletes(e)
    ensures PrintedSignature(Run(WriteTrace(db, k).db, fs), db.pending[k]) == CertificateSignature(db)
  {
    FreshWritePrintsActive(db, k);
    FreshWriteSurvives(db, k, fs);
    DistinctCounts(db.pending, db.pending[k]);
    assert Exists(db, db.pending[k]);
    PrintedForever(db, k);
  }

  lemma FreshWritePrintsActive(db: Db, k: nat)
    requires VersionsOk(db) && TracesReadable(db.traces) && Fresh(db) && k < |db.pending|
    ensures PrintedSignature(WriteTrace(db, k).db, db.pending[k]) == CertificateSignature(db)
  {
    assert db.pending[k] in db.pending;
    NoTraceNoPairs(db.traces, db.pending[k]);
    WriteTraceExactly(db, k);
  }

  lemma FreshWriteSurvives(db: Db, k: nat, fs: seq<Event>)
    requires Fresh(db) && k < |db.pending| && forall e :: e in fs ==> !Deletes(e)
    ensures Survives(WriteTrace(db, k).db, fs, db.pending[k])
  {
    assert db.pending[k] in db.pending;
    WriteKeepsFresh(db, k);
    FreshSurvives(WriteTrace(db, k).db, fs, db.pending[k]);
  }

  /**
   In every run without deletions, the signature printed for a calculation, at any time after
   its trace was written, is the active signature at the instant of that write.
   */
  lemma HistoryIsFaithful(es: seq<Event>, k: nat, fs: seq<Event>)
    requires (forall e :: e in es ==> !Deletes(e)) && forall e :: e in fs ==> !Deletes(e)
    requires k < |Run(EMPTY, es).pending|
    ensures var atWrite := Run(EMPTY, es);
      PrintedSignature(Run(WriteTrace(atWrite, k).db, fs), atWrite.pending[k]) == CertificateSignature(atWrite)
  {
    RunKeepsFresh(EMPTY, es);
    RunKeepsReadable(EMPTY, es);
    FreshWriteIsFaithful(Run(EMPTY, es), k, fs);
  }

  /** With deletion it can fail: a reused id prints the traces of both calculations. */
  function MixedRun(): seq<Event> {
    [CreatePackageE("washer", "h", Records([]), 4), SetPackageStatusE(1, Some(Approved)), ActivateVersionE(1),
     AddCalcE(1, Engineer, None, "first"), WriteTraceE(0), DeleteCalcE(1, Engineer, 1),
     AddCalcE(1, Engineer, None, "second")]
  }

  const WASHERS := Package("washer", "h", Records([]), 4, Draft)
  const WASHERS_V1 := Version("washer", VersionName(1), 1, 4, false)
  const FIRST_TRACE := Trace(1, "washer", 1, VersionName(1), 1)

  /** The tables after each request of that run. */
  function MixedStates(): seq<Db> {
    var empty := EMPTY.(packages := [WASHERS.(status := Approved)], versions := [WASHERS_V1]);
    var active := empty.(versions := [WASHERS_V1.(isActive := true)]);
    var first := active.(calcs := [Calc(1, 1, None, "first")]);
    [EMPTY.(packages := [WASHERS]), empty, active, first.(pending := [1]), first.(traces := [FIRST_TRACE]),
     active.(traces := [FIRST_TRACE]),
     active.(calcs := [Calc(1, 1, None, "second")], pending := [1], traces := [FIRST_TRACE])]
  }

  lemma MixedBegins()
    ensures var es, dbs := MixedRun(), MixedStates();
      Step(EMPTY, es[0]) == dbs[0] && Step(dbs[0], es[1]) == dbs[1]
  {
    assert Mint([], WASHERS, 1) == [WASHERS_V1] by { MintAppends([], WASHERS, 1); }
  }

  lemma MixedActivates()
    ensures var es, dbs := MixedRun(), MixedStates(); Step(dbs[1], es[2]) == dbs[2]
  {
    assert SetActive([WASHERS_V1], 0) == [WASHERS_V1.(isActive := true)];
  }

  lemma MixedWrites()
    ensures var es, dbs := MixedRun(), MixedStates();
      Step(dbs[2], es[3]) == dbs[3] && Step(dbs[3], es[4]) == dbs[4]
  {
    var vs := MixedStates()[3].versions;
    assert vs[..0] == [];
    assert TracesOf(vs, 1) == [FIRST_TRACE];
  }

  lemma MixedEnds()
    ensures var es, dbs := MixedRun(), MixedStates();
      Step(dbs[4], es[5]) == dbs[5] && Step(dbs[5], es[6]) == dbs[6]
  {
    OnlyCalcGoes(MixedStates()[4], Calc(1, 1, None, "first"));
  }

  lemma MixedRunEnds()
    ensures Run(EMPTY, MixedRun()) == MixedStates()[6]
  {
    MixedBegins();
    MixedActivates();
    MixedWrites();
    MixedEnds();
    RunIsSteps(MixedRun(), MixedStates());
  }

  lemma ReusedIdMixesTraces()
    ensures var db := Run(EMPTY, MixedRun());
      && db.pending == [1] && db.calcs == [Calc(1, 1, None, "second")]
      && PrintedSignature(WriteTrace(db, 0).db, 1) != CertificateSignature(db)
  {
    MixedRunEnds();
    var db := MixedStates()[6];
    RunKeepsReadable(EMPTY, MixedRun());
    assert db.traces[..0] == [];
    assert TracePairs(db.traces, 1) == [("washer", VersionName(1))];
    WriteTraceExactly(db, 0);
  }

  lemma {:induction false} RunIsSteps(es: seq<Event>, dbs: seq<Db>)
    requires |es| == |dbs| > 0 && dbs[0] == Step(EMPTY, es[0])
    requires forall i :: 0 < i < |es| ==> dbs[i] == Step(dbs[i - 1], es[i])
    ensures Run(EMPTY, es) == dbs[|dbs| - 1]
  {
    if |es| > 1 {
      var n := |es| - 1;
      RunIsSteps(es[..n], dbs[..n]);
      RunConcat(EMPTY, es[..n], [es[n]]);
      assert es == es[..n] + [es[n]];
      assert Run(dbs[n - 1], [es[n]]) == dbs[n];
    } else {
      assert es == [es[0]] && es[1..] == [];
    }
  }
}
