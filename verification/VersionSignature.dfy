/**
 The "version signature": the active dataset:version pairs in dataset order. Three handlers
 print it, each in its own way; they agree, and the text determines the active versions.
 */
module VersionSignature {
  import opened Options
  import opened Sorting
  import opened Text
  import opened ReferenceData
  import opened ReleaseTables
  import opened VersionHistory

  /** A dataset and a version number. */
  type Pair = (string, string)

  function PairLe(): (Pair, Pair) -> bool {
    (p: Pair, q: Pair) => StrLe(p.0, q.0)
  }

  function Token(p: Pair): string {
    p.0 + ":" + p.1
  }

  /** The text for pairs already in order; None when there are none. */
  function Render(pairs: seq<Pair>): Option<string> {
    if pairs == [] then None else Some(Join('|', Map(pairs, Token)))
  }

  function SignatureOf(pairs: seq<Pair>): Option<string> {
    Render(Sort(pairs, PairLe()))
  }

  /** SELECT dataset, version_no FROM data_versions WHERE is_active=1, in id order. */
  function ActivePairs(vs: seq<Version>): seq<Pair> {
    if vs == [] then []
    else
      var last := vs[|vs| - 1];
      ActivePairs(vs[..|vs| - 1]) + if last.isActive then [(last.dataset, last.versionNo)] else []
  }

  /** The same rows joined to their packages. */
  function JoinedPairs(ps: seq<Package>, vs: seq<Version>): seq<Pair> {
    if vs == [] then []
    else
      var last := vs[|vs| - 1];
      JoinedPairs(ps, vs[..|vs| - 1])
      + if last.isActive && 1 <= last.packageId <= |ps| then [(last.dataset, last.versionNo)] else []
  }

  // ------------------------------------------------- a Python dict, in insertion order

  function IndexOf(dict: seq<Pair>, key: string): (r: nat)
    ensures r <= |dict|
    ensures r < |dict| ==> dict[r].0 == key
    ensures r == |dict| ==> forall i :: 0 <= i < |dict| ==> dict[i].0 != key
  {
    if dict == [] || dict[0].0 == key then 0 else IndexOf(dict[1..], key) + 1
  }

  function Put(dict: seq<Pair>, p: Pair): seq<Pair> {
    var i := IndexOf(dict, p.0);
    if i < |dict| then dict[i := p] else dict + [p]
  }

  function DictOf(pairs: seq<Pair>): seq<Pair> {
    if pairs == [] then [] else Put(DictOf(pairs[..|pairs| - 1]), pairs[|pairs| - 1])
  }

  function Get(dict: seq<Pair>, key: string): string {
    var i := IndexOf(dict, key);
    if i < |dict| then dict[i].1 else ""
  }

  function Keys(dict: seq<Pair>): seq<string> {
    Map(dict, (p: Pair) => p.0)
  }

  /** "|".join(k + ":" + dict[k] for k in sorted(dict)) */
  function RenderDict(dict: seq<Pair>): Option<string> {
    Render(Map(Sort(Keys(dict), StrLe), k => (k, Get(dict, k))))
  }

  // ------------------------------------------------------------- the three renderers

  /** `create_release_certificate` */
  function CertificateSignature(db: Db): Option<string> {
    SignatureOf(ActivePairs(db.versions))
  }

  /** `active_data` */
  function ActiveDataSignature(db: Db): Option<string> {
    RenderDict(DictOf(JoinedPairs(db.packages, db.versions)))
  }

  predicate KnownPair(p: Pair) {
    p.0 in DATASETS
  }

  function EngineLibraryDict(pairs: seq<Pair>): seq<Pair> {
    DictOf(Filter(pairs, KnownPair))
  }

  /** `engine_library`: the loop over the active rows, and the signature and verdict it returns. */
  method EngineLibrary(db: Db) returns (signature: Option<string>, productionReady: bool)
    ensures signature == RenderDict(EngineLibraryDict(JoinedPairs(db.packages, db.versions)))
    ensures productionReady
      <==> forall d :: d in DATASETS ==> d in Keys(EngineLibraryDict(JoinedPairs(db.packages, db.versions)))
  {
    var rows := JoinedPairs(db.packages, db.versions);
    var versions := [];
    for i := 0 to |rows|
      invariant versions == EngineLibraryDict(rows[..i])
    {
      ghost var kept := Filter(rows[..i], KnownPair);
      assert rows[..i + 1] == rows[..i] + [rows[i]];
      FilterConcat(rows[..i], [rows[i]], KnownPair);
      assert [rows[i]][1..] == [];
      if KnownPair(rows[i]) {
        assert Filter(rows[..i + 1], KnownPair) == kept + [rows[i]];
        assert (kept + [rows[i]])[..|kept|] == kept;
        versions := Put(versions, rows[i]);
      } else {
        assert Filter(rows[..i + 1], KnownPair) == kept;
      }
    }
    assert rows[..|rows|] == rows;
    signature := RenderDict(versions);
    productionReady := forall d :: d in DATASETS ==> d in Keys(versions);
  }

  // ------------------------------------------------------------------- they agree

  ghost predicate KeysDistinct(pairs: seq<Pair>) {
    forall i, j :: 0 <= i < j < |pairs| ==> pairs[i].0 != pairs[j].0
  }

  lemma PairLeSortable()
    ensures Sortable(PairLe())
  {
    forall p: Pair, q: Pair ensures PairLe()(p, q) || PairLe()(q, p) { StrLeTotal(p.0, q.0); }
    forall p: Pair, q: Pair, r: Pair | PairLe()(p, q) && PairLe()(q, r) ensures PairLe()(p, r) {
      StrLeTransitive(p.0, q.0, r.0);
    }
  }

  lemma StrLeSortable()
    ensures Sortable(StrLe)
  {
    forall p, q ensures StrLe(p, q) || StrLe(q, p) { StrLeTotal(p, q); }
    forall p, q, r | StrLe(p, q) && StrLe(q, r) ensures StrLe(p, r) { StrLeTransitive(p, q, r); }
  }

  /** Pairs with distinct keys sort to one arrangement, whatever order they come in. */
  lemma SortedPairsUnique(xs: seq<Pair>, ys: seq<Pair>)
    requires KeysDistinct(xs) && KeysDistinct(ys) && Sorted(ys, PairLe())
    requires forall p :: p in xs <==> p in ys
    ensures Sort(xs, PairLe()) == ys
  {
    var s := Sort(xs, PairLe());
    PairLeSortable();
    SortSorts(xs, PairLe());
    SamePermutation(xs, s);
    DistinctPermutation(xs, s);
    forall p, q | p in s && q in s && PairLe()(p, q) && PairLe()(q, p) ensures p == q {
      StrLeAntisymmetric(p.0, q.0);
      assert p in xs && q in xs;
    }
    SortedUnique(s, ys, PairLe());
  }

  lemma {:induction false} DictOfDistinct(pairs: seq<Pair>)
    requires KeysDistinct(pairs)
    ensures DictOf(pairs) == pairs
  {
    if pairs != [] { DictOfDistinct(pairs[..|pairs| - 1]); }
  }

  lemma GetDistinct(dict: seq<Pair>, i: nat)
    requires KeysDistinct(dict) && i < |dict|
    ensures Get(dict, dict[i].0) == dict[i].1
  {
    var j := IndexOf(dict, dict[i].0);
  }

  lemma RenderDictSorts(dict: seq<Pair>)
    requires KeysDistinct(dict)
    ensures RenderDict(dict) == SignatureOf(dict)
  {
    var keys := Sort(Keys(dict), StrLe);
    var f := (k: string) => (k, Get(dict, k));
    var pairs := Map(keys, f);
    StrLeSortable();
    SortSorts(Keys(dict), StrLe);
    SamePermutation(Keys(dict), keys);
    assert Distinct(Keys(dict));
    DistinctPermutation(Keys(dict), keys);
    assert KeysDistinct(pairs);
    assert Sorted(pairs, PairLe());
    forall p ensures p in dict <==> p in pairs {
      if p in dict {
        var i :| 0 <= i < |dict| && dict[i] == p;
        GetDistinct(dict, i);
        assert Keys(dict)[i] in keys;
        var j :| 0 <= j < |keys| && keys[j] == p.0;
        assert pairs[j] == p;
      }
      if p in pairs {
        var j :| 0 <= j < |pairs| && pairs[j] == p;
        assert keys[j] in Keys(dict);
        var i :| 0 <= i < |dict| && dict[i].0 == p.0;
        GetDistinct(dict, i);
      }
    }
    SortedPairsUnique(dict, pairs);
  }

  lemma {:induction false} ActivePairsMember(vs: seq<Version>, p: Pair)
    ensures p in ActivePairs(vs)
      <==> exists i :: 0 <= i < |vs| && vs[i].isActive && p == (vs[i].dataset, vs[i].versionNo)
  {
    if vs != [] {
      var n := |vs| - 1;
      ActivePairsMember(vs[..n], p);
      if exists i :: 0 <= i < |vs| && vs[i].isActive && p == (vs[i].dataset, vs[i].versionNo) {
        var i :| 0 <= i < |vs| && vs[i].isActive && p == (vs[i].dataset, vs[i].versionNo);
        assert i < n ==> vs[..n][i] == vs[i];
      }
    }
  }

  lemma {:induction false} ActivePairsDistinct(vs: seq<Version>)
    requires OneActive(vs)
    ensures KeysDistinct(ActivePairs(vs))
  {
    if vs != [] {
      var n := |vs| - 1;
      ActivePairsDistinct(vs[..n]);
      var before := ActivePairs(vs[..n]);
      forall i | 0 <= i < |before| && vs[n].isActive ensures before[i].0 != vs[n].dataset {
        ActivePairsMember(vs[..n], before[i]);
      }
    }
  }

  lemma {:induction false} JoinedIsActive(ps: seq<Package>, vs: seq<Version>)
    requires RowsOk(ps, vs)
    ensures JoinedPairs(ps, vs) == ActivePairs(vs)
  {
    if vs != [] { JoinedIsActive(ps, vs[..|vs| - 1]); }
  }

  lemma ActivePairsKnown(db: Db, p: Pair)
    requires VersionsOk(db) && p in ActivePairs(db.versions)
    ensures KnownPair(p)
  {
    ActivePairsMember(db.versions, p);
  }

  lemma {:induction false} FilterAll<T>(xs: seq<T>, p: T -> bool)
    requires forall i :: 0 <= i < |xs| ==> p(xs[i])
    ensures Filter(xs, p) == xs
  {
    if xs != [] { FilterAll(xs[1..], p); }
  }

  /** In every state that satisfies the version invariant the three handlers print the same signature. */
  lemma RenderersAgree(db: Db)
    requires VersionsOk(db)
    ensures ActiveDataSignature(db) == CertificateSignature(db)
    ensures RenderDict(EngineLibraryDict(JoinedPairs(db.packages, db.versions))) == CertificateSignature(db)
  {
    var pairs := ActivePairs(db.versions);
    JoinedIsActive(db.packages, db.versions);
    ActivePairsDistinct(db.versions);
    forall i | 0 <= i < |pairs| ensures KnownPair(pairs[i]) { ActivePairsKnown(db, pairs[i]); }
    FilterAll(pairs, KnownPair);
    DictOfDistinct(pairs);
    RenderDictSorts(pairs);
  }

  // ------------------------------------------ the text determines the active versions

  /** A pair the rendering can be undone for. */
  predicate Readable(p: Pair) {
    '|' !in p.0 && ':' !in p.0 && '|' !in p.1
  }

  function ReadToken(t: string): Pair {
    var c := Cut(':', t);
    (c.0, c.2)
  }

  function ReadSignature(s: Option<string>): seq<Pair> {
    if s.None? then [] else Map(Split('|', s.value), ReadToken)
  }

  lemma ReadRender(pairs: seq<Pair>)
    requires forall p :: p in pairs ==> Readable(p)
    ensures ReadSignature(Render(pairs)) == pairs
  {
    if pairs != [] {
      var tokens := Map(pairs, Token);
      forall t | t in tokens ensures '|' !in t {
        var i :| 0 <= i < |tokens| && t == tokens[i];
        assert pairs[i] in pairs;
      }
      SplitJoin('|', tokens);
      forall i | 0 <= i < |pairs| ensures ReadToken(tokens[i]) == pairs[i] {
        assert pairs[i] in pairs;
        CutAfter(':', pairs[i].0, pairs[i].1);
      }
    }
  }

  lemma VersionNameReadable(n: nat)
    ensures '|' !in VersionName(n)
  {
    ParseNatToString(n);
    var digits := NatToString(n);
    forall i | 0 <= i < |digits| ensures digits[i] != '|' {
      assert IsDigit(digits[i]);
    }
  }

  lemma DatasetReadable(d: string)
    requires d in DATASETS
    ensures '|' !in d && ':' !in d
  {
  }

  /** Which version of each dataset is active. */
  ghost function ActiveMap(vs: seq<Version>): map<string, nat> {
    map d | d in DATASETS && Current(vs, d) != 0 :: Current(vs, d)
  }

  lemma ActivePairsAreMap(db: Db, p: Pair)
    requires VersionsOk(db)
    ensures p in ActivePairs(db.versions)
      <==> p.0 in ActiveMap(db.versions) && p.1 == VersionName(ActiveMap(db.versions)[p.0])
  {
    var vs := db.versions;
    ActivePairsMember(vs, p);
    if p in ActivePairs(vs) {
      var i :| 0 <= i < |vs| && vs[i].isActive && p == (vs[i].dataset, vs[i].versionNo);
      CurrentOfActive(vs, i);
      OrdinalBounds(vs, i);
      ActivePairsKnown(db, p);
    }
    if p.0 in ActiveMap(vs) && p.1 == VersionName(ActiveMap(vs)[p.0]) {
      var i := CurrentHasRow(vs, p.0);
      assert p == (vs[i].dataset, vs[i].versionNo);
    }
  }

  lemma ActivePairsReadable(db: Db)
    requires VersionsOk(db)
    ensures forall p :: p in ActivePairs(db.versions) ==> Readable(p)
  {
    forall p | p in ActivePairs(db.versions) ensures Readable(p) {
      ActivePairsAreMap(db, p);
      DatasetReadable(p.0);
      VersionNameReadable(ActiveMap(db.versions)[p.0]);
    }
  }

  /** Two states print the same signature exactly when the same version of each dataset is active. */
  lemma SignatureDetermines(db1: Db, db2: Db)
    requires VersionsOk(db1) && VersionsOk(db2)
    ensures CertificateSignature(db1) == CertificateSignature(db2)
      <==> ActiveMap(db1.versions) == ActiveMap(db2.versions)
  {
    if CertificateSignature(db1) == CertificateSignature(db2) { SameSignatureSameMap(db1, db2); }
    if ActiveMap(db1.versions) == ActiveMap(db2.versions) { SameMapSameSignature(db1, db2); }
  }

  lemma SameSignatureSameMap(db1: Db, db2: Db)
    requires VersionsOk(db1) && VersionsOk(db2)
    requires CertificateSignature(db1) == CertificateSignature(db2)
    ensures ActiveMap(db1.versions) == ActiveMap(db2.versions)
  {
    var p1, p2 := ActivePairs(db1.versions), ActivePairs(db2.versions);
    SamePermutation(p1, Sort(p1, PairLe()));
    SamePermutation(p2, Sort(p2, PairLe()));
    ActivePairsReadable(db1);
    ActivePairsReadable(db2);
    ReadRender(Sort(p1, PairLe()));
    ReadRender(Sort(p2, PairLe()));
    MapsAgree(db1, db2);
    MapsAgree(db2, db1);
  }

  lemma SameMapSameSignature(db1: Db, db2: Db)
    requires VersionsOk(db1) && VersionsOk(db2)
    requires ActiveMap(db1.versions) == ActiveMap(db2.versions)
    ensures CertificateSignature(db1) == CertificateSignature(db2)
  {
    var p1, p2 := ActivePairs(db1.versions), ActivePairs(db2.versions);
    var s2 := Sort(p2, PairLe());
    SamePermutation(p2, s2);
    forall p ensures p in p1 <==> p in s2 { ActivePairsAreMap(db1, p); ActivePairsAreMap(db2, p); }
    ActivePairsDistinct(db1.versions);
    ActivePairsDistinct(db2.versions);
    SortKeepsDistinctKeys(p2);
    PairLeSortable();
    SortSorts(p2, PairLe());
    SortedPairsUnique(p1, s2);
  }

  lemma SortKeepsDistinctKeys(pairs: seq<Pair>)
    requires KeysDistinct(pairs)
    ensures KeysDistinct(Sort(pairs, PairLe()))
  {
    var s := Sort(pairs, PairLe());
    SamePermutation(pairs, s);
    DistinctPermutation(pairs, s);
    forall i, j | 0 <= i < j < |s| ensures s[i].0 != s[j].0 {
      assert s[i] in pairs && s[j] in pairs;
    }
  }

  lemma MapsAgree(db1: Db, db2: Db)
    requires VersionsOk(db1) && VersionsOk(db2)
    requires forall p :: p in ActivePairs(db1.versions) ==> p in ActivePairs(db2.versions)
    ensures forall d :: d in ActiveMap(db1.versions) ==>
      d in ActiveMap(db2.versions) && ActiveMap(db2.versions)[d] == ActiveMap(db1.versions)[d]
  {
    forall d | d in ActiveMap(db1.versions)
      ensures d in ActiveMap(db2.versions) && ActiveMap(db2.versions)[d] == ActiveMap(db1.versions)[d]
    {
      var p := (d, VersionName(ActiveMap(db1.versions)[d]));
      ActivePairsAreMap(db1, p);
      ActivePairsAreMap(db2, p);
      VersionNameInjective(ActiveMap(db1.versions)[d], ActiveMap(db2.versions)[d]);
    }
  }
}
