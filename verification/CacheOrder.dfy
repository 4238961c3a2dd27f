/** When the order of captures matters: exactly when some identity on disk is listed
    only by manifests whose DLL is gone. */
module CacheOrder {
  import opened CacheProtocol
  import Identity

  ghost predicate DistinctKeys(jobs: seq<Job>) {
    forall i, j :: 0 <= i < |jobs| && 0 <= j < |jobs| && jobs[i].key == jobs[j].key ==> i == j
  }

  ghost predicate SameJobs(a: seq<Job>, b: seq<Job>) { forall j :: j in a <==> j in b }

  /** The identities that the captures leave on disk when run in the given order. */
  ghost predicate Leaves(jobs: seq<Job>, d: Disk, p: int, x: Id) { Listed(DoAll(jobs, Cache(d, map[])).disk, p, x) }

  ghost predicate Agree(a: seq<Job>, b: seq<Job>, d: Disk) { forall p, x :: Leaves(a, d, p, x) <==> Leaves(b, d, p, x) }

  /** No reordering of captures with distinct keys changes the identities on disk. */
  ghost predicate OrderFree(d: Disk) {
    forall a, b :: DistinctKeys(a) && DistinctKeys(b) && SameJobs(a, b) ==> Agree(a, b, d)
  }

  lemma ExpectedCarries(a: seq<Job>, b: seq<Job>, d: Disk, p: int, x: Id)
    requires SameJobs(a, b) && Expected(System(a, 1, d), p, x)
    ensures Expected(System(b, 1, d), p, x)
  {
    var sa, sb := System(a, 1, d), System(b, 1, d);
    if !Listed(d, p, x) {
      var j: nat :| j < |a| && Contributes(sa, j) && a[j].key.region == p && x in Yield(sa, j).ids;
      assert a[j] in b;
      var i: nat :| i < |b| && b[i] == a[j];
      assert Contributes(sb, i);
    }
  }

  lemma BackedIsOrderFree(d: Disk)
    requires d.Backed()
    ensures OrderFree(d)
  {
    forall a, b, p, x | DistinctKeys(a) && DistinctKeys(b) && SameJobs(a, b)
      ensures Leaves(a, d, p, x) <==> Leaves(b, d, p, x)
    {
      BackedPreserves(System(a, 1, d));
      BackedPreserves(System(b, 1, d));
      SequentialAgrees(System(a, 1, d), p, x);
      SequentialAgrees(System(b, 1, d), p, x);
      if Expected(System(a, 1, d), p, x) { ExpectedCarries(a, b, d, p, x); }
      if Expected(System(b, 1, d), p, x) { ExpectedCarries(b, a, d, p, x); }
    }
  }

  // ---- the converse ----

  /** A capture that always yields these identities. */
  function Always(k: Key, ids: set<Id>): Job { Job(k, _ => Ids(ids), true) }

  /** An identity that tells the key, at an entry of its own. */
  function Tag(n: int, k: Key): Id { Identity.Id(n, k.crc) }

  function Overwriters(q: seq<Key>, n: int): seq<Job> {
    seq(|q|, i requires 0 <= i < |q| => Always(q[i], {Tag(n, q[i])}))
  }

  lemma {:induction false} Bound<T>(s: set<T>, f: T -> int) returns (n: int)
    ensures forall x :: x in s ==> f(x) < n
    decreases |s|
  {
    if s == {} { return 0; }
    var x :| x in s;
    var m := Bound(s - {x}, f);
    n := if f(x) < m then m else f(x) + 1;
    forall y | y in s ensures f(y) < n { assert y == x || y in s - {x}; }
  }

  /** The keys of a set, in some order. */
  lemma {:induction false} Enumerate(s: set<Key>) returns (q: seq<Key>)
    ensures forall k :: k in q <==> k in s
    ensures forall i, j :: 0 <= i < j < |q| ==> q[i] != q[j]
    decreases |s|
  {
    if s == {} { return []; }
    var k :| k in s;
    var r := Enumerate(s - {k});
    q := r + [k];
  }

  /** What is left to lose: identity `x` of region `p` is listed, by `stale` manifests
      without a DLL only; no listed identity has entry `n`, and `spare` is an unused key. */
  datatype Hazard = Hazard(p: int, x: Id, stale: seq<Key>, n: int, spare: Key)

  ghost predicate IsHazard(d: Disk, h: Hazard) {
    && h.stale != [] && (forall k :: k in h.stale <==> d.Lists(k, h.p, h.x))
    && (forall k :: k in h.stale ==> k !in d.dlls)
    && (forall i, j :: 0 <= i < j < |h.stale| ==> h.stale[i] != h.stale[j])
    && (forall y :: y in d.Region(h.p) ==> y.entry < h.n)
    && h.spare.region == h.p && h.spare !in d.manifests && h.spare !in d.dlls
  }

  lemma HazardExists(d: Disk) returns (h: Hazard)
    requires !d.Backed()
    ensures IsHazard(d, h)
  {
    var k: Key, x :| d.Lists(k, k.region, x) && !d.Provided(k.region, x);
    var p := k.region;
    var stale := Enumerate(set k' | k' in d.manifests && d.Lists(k', p, x));
    var entry, crc := (y: Id) => y.entry, (k': Key) => k'.crc;
    var n := Bound(d.Region(p), entry);
    var m := Bound(d.manifests.Keys + d.dlls, crc);
    assert forall y :: y in d.Region(p) ==> entry(y) < n;
    assert forall k' :: k' in d.manifests.Keys + d.dlls ==> crc(k') < m;
    assert k in stale;
    h := Hazard(p, x, stale, n, Key(p, m));
    assert crc(h.spare) == m;
  }

  /** The cache after the first `i` stale manifests were overwritten. */
  ghost predicate Overwritten(d: Disk, h: Hazard, i: nat, c: Cache) {
    && i <= |h.stale|
    && (forall k :: k in c.disk.manifests <==> k in d.manifests)
    && (forall k :: k in d.manifests ==>
          c.disk.manifests[k] == if k in h.stale[..i] then {Tag(h.n, k)} else d.manifests[k])
    && (forall k :: k in c.disk.dlls <==> k in d.dlls || k in h.stale[..i])
    && (if h.p in c.coverage then Covers(d, h, i, c.coverage[h.p]) else i == 0)
  }

  ghost predicate Covers(d: Disk, h: Hazard, i: nat, cov: set<Id>)
    requires i <= |h.stale|
  {
    forall y :: y in cov <==> y in d.Region(h.p) || exists k :: k in h.stale[..i] && y == Tag(h.n, k)
  }

  /** What the coverage of a region is when a capture checks it. */
  function Loaded(c: Cache, p: int): set<Id> { if p in c.coverage then c.coverage[p] else c.disk.Region(p) }

  /** A capture with a new identity and no DLL is built. */
  lemma Builds(k: Key, y: Id, c: Cache)
    requires k !in c.disk.dlls && y !in Loaded(c, k.region)
    ensures var c' := DoCapture(Always(k, {y}), c);
      c'.disk == Disk(c.disk.manifests[k := {y}], c.disk.dlls + {k})
      && k.region in c'.coverage && c'.coverage[k.region] == Loaded(c, k.region) + {y}
  {
    assert y in {y};
  }

  lemma OverwriteOne(d: Disk, h: Hazard, i: nat, c: Cache)
    requires IsHazard(d, h) && Overwritten(d, h, i, c) && i < |h.stale|
    ensures Overwritten(d, h, i + 1, DoCapture(Always(h.stale[i], {Tag(h.n, h.stale[i])}), c))
  {
    var k, y, cov := h.stale[i], Tag(h.n, h.stale[i]), Loaded(c, h.p);
    assert k in h.stale && d.Lists(k, h.p, h.x) && k !in h.stale[..i];
    if h.p !in c.coverage { FirstLoad(d, h, c); }
    FreshTag(d, h, i, cov);
    Builds(k, y, c);
    CoversOne(d, h, i, cov);
    NextOverwritten(d, h, i, c, DoCapture(Always(k, {y}), c));
  }

  lemma NextOverwritten(d: Disk, h: Hazard, i: nat, c: Cache, c': Cache)
    requires Overwritten(d, h, i, c) && i < |h.stale| && h.stale[i] in d.manifests
    requires c'.disk == Disk(c.disk.manifests[h.stale[i] := {Tag(h.n, h.stale[i])}], c.disk.dlls + {h.stale[i]})
    requires h.p in c'.coverage && Covers(d, h, i + 1, c'.coverage[h.p])
    ensures Overwritten(d, h, i + 1, c')
  {
    assert h.stale[..i + 1] == h.stale[..i] + [h.stale[i]];
  }

  lemma FirstLoad(d: Disk, h: Hazard, c: Cache)
    requires Overwritten(d, h, 0, c)
    ensures Covers(d, h, 0, c.disk.Region(h.p))
  {
    assert h.stale[..0] == [];
    forall k, y ensures c.disk.Lists(k, h.p, y) <==> d.Lists(k, h.p, y) {}
  }

  lemma FreshTag(d: Disk, h: Hazard, i: nat, cov: set<Id>)
    requires IsHazard(d, h) && i < |h.stale| && Covers(d, h, i, cov)
    ensures Tag(h.n, h.stale[i]) !in cov
  {
    forall k | k in h.stale[..i] ensures Tag(h.n, k) != Tag(h.n, h.stale[i]) {
      assert k in h.stale && h.stale[i] in h.stale;
      assert d.Lists(k, h.p, h.x) && d.Lists(h.stale[i], h.p, h.x);
    }
  }

  lemma CoversOne(d: Disk, h: Hazard, i: nat, cov: set<Id>)
    requires i < |h.stale| && Covers(d, h, i, cov)
    ensures Covers(d, h, i + 1, cov + {Tag(h.n, h.stale[i])})
  {
    assert h.stale[..i + 1] == h.stale[..i] + [h.stale[i]];
  }

  lemma DoAllSnoc(jobs: seq<Job>, i: nat, c: Cache)
    requires i < |jobs|
    ensures DoAll(jobs[..i + 1], c) == DoCapture(jobs[i], DoAll(jobs[..i], c))
  {
    assert jobs[..i + 1][..i] == jobs[..i];
  }

  lemma {:induction false} OverwriteAll(d: Disk, h: Hazard, i: nat)
    requires IsHazard(d, h) && i <= |h.stale|
    ensures Overwritten(d, h, i, DoAll(Overwriters(h.stale, h.n)[..i], Cache(d, map[])))
  {
    var jobs, c := Overwriters(h.stale, h.n), Cache(d, map[]);
    if i == 0 {
      assert h.stale[..0] == [] && jobs[..0] == [];
    } else {
      OverwriteAll(d, h, i - 1);
      DoAllSnoc(jobs, i - 1, c);
      OverwriteOne(d, h, i - 1, DoAll(jobs[..i - 1], c));
    }
  }

  /** The capture that would have kept `x`: everything it yields seems covered once the
      stale manifests are overwritten. */
  function Rescue(h: Hazard): Job
    requires h.stale != []
  {
    Always(h.spare, {h.x, Tag(h.n, h.stale[0])})
  }

  lemma RescuedLast(d: Disk, h: Hazard)
    requires IsHazard(d, h)
    ensures !Leaves(Overwriters(h.stale, h.n) + [Rescue(h)], d, h.p, h.x)
  {
    var jobs, n := Overwriters(h.stale, h.n), |h.stale|;
    OverwriteAll(d, h, n);
    assert jobs[..n] == jobs;
    var all, c := jobs + [Rescue(h)], DoAll(jobs, Cache(d, map[]));
    assert all[..n] == jobs && all[..n + 1] == all;
    DoAllSnoc(all, n, Cache(d, map[]));
    LostOnceOverwritten(d, h, c);
  }

  lemma LostOnceOverwritten(d: Disk, h: Hazard, c: Cache)
    requires IsHazard(d, h) && Overwritten(d, h, |h.stale|, c)
    ensures !Listed(DoCapture(Rescue(h), c).disk, h.p, h.x)
  {
    assert h.stale[..|h.stale|] == h.stale;
    assert h.stale[0] in h.stale && d.Lists(h.stale[0], h.p, h.x);
    assert h.x in d.Region(h.p);
    assert h.x in c.coverage[h.p] && Tag(h.n, h.stale[0]) in c.coverage[h.p];
    assert DoCapture(Rescue(h), c).disk == c.disk;
    forall k ensures !c.disk.Lists(k, h.p, h.x) {
      assert k in h.stale <==> d.Lists(k, h.p, h.x);
    }
  }

  lemma {:induction false} OthersKeep(jobs: seq<Job>, c: Cache, k: Key)
    requires k in c.disk.manifests && forall j :: 0 <= j < |jobs| ==> jobs[j].key != k
    ensures var c' := DoAll(jobs, c); k in c'.disk.manifests && c'.disk.manifests[k] == c.disk.manifests[k]
    decreases |jobs|
  {
    if jobs != [] { OthersKeep(jobs[..|jobs| - 1], c, k); }
  }

  lemma {:induction false} DoAllCons(job: Job, jobs: seq<Job>, c: Cache)
    ensures DoAll([job] + jobs, c) == DoAll(jobs, DoCapture(job, c))
    decreases |jobs|
  {
    var all := [job] + jobs;
    if jobs == [] {
      assert all == [job] && all[..0] == [];
    } else {
      assert all[..|all| - 1] == [job] + jobs[..|jobs| - 1] && all[|all| - 1] == jobs[|jobs| - 1];
      DoAllCons(job, jobs[..|jobs| - 1], c);
    }
  }

  lemma RescuedFirst(d: Disk, h: Hazard)
    requires IsHazard(d, h)
    ensures Leaves([Rescue(h)] + Overwriters(h.stale, h.n), d, h.p, h.x)
  {
    var jobs, c := Overwriters(h.stale, h.n), Cache(d, map[]);
    var c1 := DoCapture(Rescue(h), c);
    var tag := Tag(h.n, h.stale[0]);
    assert tag !in d.Region(h.p);
    assert tag in {h.x, tag};
    assert h.spare in c1.disk.manifests && c1.disk.manifests[h.spare] == {h.x, tag};
    forall j | 0 <= j < |jobs| ensures jobs[j].key != h.spare {
      assert h.stale[j] in h.stale;
      assert d.Lists(h.stale[j], h.p, h.x);
    }
    OthersKeep(jobs, c1, h.spare);
    DoAllCons(Rescue(h), jobs, c);
    assert DoAll(jobs, c1).disk.Lists(h.spare, h.p, h.x);
  }

  lemma HazardKeys(d: Disk, h: Hazard)
    requires IsHazard(d, h)
    ensures var jobs, r := Overwriters(h.stale, h.n), Rescue(h);
      DistinctKeys(jobs + [r]) && DistinctKeys([r] + jobs) && SameJobs([r] + jobs, jobs + [r])
  {
    var jobs, r := Overwriters(h.stale, h.n), Rescue(h);
    forall j | 0 <= j < |jobs| ensures jobs[j].key != r.key {
      assert h.stale[j] in h.stale;
      assert d.Lists(h.stale[j], h.p, h.x);
    }
  }

  /** The order of captures never matters exactly when every identity on disk is backed
      by a manifest with its DLL. */
  lemma OrderFreeIff(d: Disk)
    ensures OrderFree(d) <==> d.Backed()
  {
    if d.Backed() {
      BackedIsOrderFree(d);
    } else {
      var h := HazardExists(d);
      var jobs, r := Overwriters(h.stale, h.n), Rescue(h);
      HazardKeys(d, h);
      RescuedFirst(d, h);
      RescuedLast(d, h);
      assert !Agree([r] + jobs, jobs + [r], d);
    }
  }
}
