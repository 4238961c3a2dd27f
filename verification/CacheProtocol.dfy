/** The overlay cache as a concurrent protocol. Workers share the per-region coverage
    sets under `cov_lock` and hold a key lock per (region, crc); the window between
    the coverage check and the coverage update is unlocked. A step of the machine is
    one atomic action of one worker, and every interleaving of steps is a run. */
module CacheProtocol {
  import Collections
  import Identity

  /** A function identity. */
  type Id = Identity.Id

  /** DLL and manifest files are named after their key. */
  datatype Key = Key(region: int, crc: int)

  /** What classifying and recompiling a capture yields. */
  datatype Outcome = NoRoots | Fails | Ids(ids: set<Id>)

  /** A capture. Recompiling it depends on the identities of a prior manifest for the
      same key, which are merged into its evidence. */
  datatype Job = Job(key: Key, recompile: set<Id> -> Outcome, compiles: bool)

  datatype Disk = Disk(manifests: map<Key, set<Id>>, dlls: set<Key>) {
    function Prior(k: Key): set<Id> { if k in manifests then manifests[k] else {} }

    /** The identities that the manifests of a region list. */
    function Region(p: int): (r: set<Id>)
      ensures forall x :: x in r <==> exists k :: Lists(k, p, x)
    {
      set k, x | k in manifests && x in manifests[k] && Lists(k, p, x) :: x
    }

    predicate Lists(k: Key, p: int, x: Id) { k in manifests && k.region == p && x in manifests[k] }

    /** Every listed identity is in some manifest that has its DLL. The tool writes a
        manifest only beside its DLL, so this fails only after a DLL was deleted. */
    ghost predicate Backed() {
      forall k: Key, x :: Lists(k, k.region, x) ==> Provided(k.region, x)
    }

    /** Some manifest with its DLL lists `x` for region `p`. */
    ghost predicate Provided(p: int, x: Id) { exists k :: k in dlls && Lists(k, p, x) }
  }

  // ---- the protocol ----

  datatype Pc =
    | Queued | Waiting | Started
    | Recompiled(ids: set<Id>) | Checking(ids: set<Id>, seen: Disk) | Building(ids: set<Id>)
    | Built(ids: set<Id>) | Written(ids: set<Id>) | Updating(ids: set<Id>)
    | Leaving | Done
  {
    /** Between taking and releasing the key lock. */
    predicate InKey() { !Queued? && !Waiting? && !Done? }
    predicate InCov() { Checking? || Updating? }
    predicate Active() { !Queued? && !Done? }

    function Rank(): nat {
      match this
      case Queued => 10 case Waiting => 9 case Started => 8 case Recompiled(_) => 7 case Checking(_, _) => 6
      case Building(_) => 5 case Built(_) => 4 case Written(_) => 3 case Updating(_) => 2 case Leaving => 1
      case Done => 0
    }
  }

  datatype State = State(disk: Disk, coverage: map<int, set<Id>>, keys: map<Key, nat>, cov: Lock, pcs: seq<Pc>)

  datatype Lock = Free | Held(owner: nat)

  datatype System = System(jobs: seq<Job>, workers: nat, disk: Disk)

  ghost function Initial(sys: System): State {
    State(sys.disk, map[], map[], Free, seq(|sys.jobs|, _ => Queued))
  }

  ghost function ActiveSet(s: State): set<nat> { set i: nat | i < |s.pcs| && s.pcs[i].Active() }

  /** What a load that lists and opens the manifests one by one may read, beside writers
      that do not hold the lock: each file as it was at the start, or as it is by now. */
  function Mixed(seen: Disk, now: Disk, late: set<Key>): Disk {
    Disk(map k | k in seen.manifests.Keys + now.manifests.Keys && k in (if k in late then now else seen).manifests ::
           (if k in late then now else seen).manifests[k], {})
  }

  /** The effect of the locked coverage check: load the region's coverage if this is its first use. */
  ghost function Loaded(s: State, seen: Disk, p: int, late: set<Key>): map<int, set<Id>> {
    if p in s.coverage then s.coverage else s.coverage[p := Mixed(seen, s.disk, late).Region(p)]
  }

  /** Whether worker `i` can act: the pool has a free slot, or the lock it needs is free. */
  ghost predicate CanMove(sys: System, s: State, i: nat)
    requires |s.pcs| == |sys.jobs| && i < |s.pcs|
  {
    match s.pcs[i]
    case Queued => |ActiveSet(s)| < sys.workers
    case Waiting => sys.jobs[i].key !in s.keys
    case Recompiled(_) => s.cov.Free?
    case Written(_) => s.cov.Free?
    case Done => false
    case _ => true
  }

  /** Where worker `i` goes next; `late` says which files a coverage load reads late. */
  ghost function NextPc(sys: System, s: State, i: nat, late: set<Key>): Pc
    requires |s.pcs| == |sys.jobs| && i < |s.pcs|
  {
    var job, k := sys.jobs[i], sys.jobs[i].key;
    match s.pcs[i]
    case Queued => Waiting
    case Waiting => Started
    case Started =>
      var r := job.recompile(s.disk.Prior(k));
      if r.Ids? && k !in s.disk.dlls then Recompiled(r.ids) else Leaving
    case Recompiled(ids) => Checking(ids, s.disk)
    case Checking(ids, seen) =>
      if ids != {} && ids <= Loaded(s, seen, k.region, late)[k.region] then Leaving else Building(ids)
    case Building(ids) => if job.compiles && ids != {} then Built(ids) else Leaving
    case Built(ids) => Written(ids)
    case Written(ids) => Updating(ids)
    case Updating(ids) => Leaving
    case Leaving => Done
    case Done => Done
  }

  ghost function NextKeys(sys: System, s: State, i: nat): map<Key, nat>
    requires |s.pcs| == |sys.jobs| && i < |s.pcs|
  {
    if s.pcs[i].Waiting? then s.keys[sys.jobs[i].key := i]
    else if s.pcs[i].Leaving? then s.keys - {sys.jobs[i].key}
    else s.keys
  }

  ghost function NextCov(s: State, i: nat): Lock
    requires i < |s.pcs|
  {
    if s.pcs[i].Recompiled? || s.pcs[i].Written? then Held(i)
    else if s.pcs[i].InCov() then Free
    else s.cov
  }

  ghost function NextDisk(sys: System, s: State, i: nat): Disk
    requires |s.pcs| == |sys.jobs| && i < |s.pcs|
  {
    var k := sys.jobs[i].key;
    match s.pcs[i]
    case Building(_) => if sys.jobs[i].compiles then s.disk.(dlls := s.disk.dlls + {k}) else s.disk
    case Built(ids) => s.disk.(manifests := s.disk.manifests[k := ids])
    case _ => s.disk
  }

  ghost function NextCoverage(sys: System, s: State, i: nat, late: set<Key>): map<int, set<Id>>
    requires |s.pcs| == |sys.jobs| && i < |s.pcs|
  {
    var p := sys.jobs[i].key.region;
    match s.pcs[i]
    case Checking(_, seen) => Loaded(s, seen, p, late)
    case Updating(ids) => s.coverage[p := (if p in s.coverage then s.coverage[p] else {}) + ids]
    case _ => s.coverage
  }

  ghost function Next(sys: System, s: State, i: nat, late: set<Key>): State
    requires |s.pcs| == |sys.jobs| && i < |s.pcs|
  {
    State(NextDisk(sys, s, i), NextCoverage(sys, s, i, late), NextKeys(sys, s, i), NextCov(s, i),
          s.pcs[i := NextPc(sys, s, i, late)])
  }

  ghost predicate Moves(sys: System, s: State, s': State, i: nat, late: set<Key>) {
    |s.pcs| == |sys.jobs| && i < |s.pcs| && CanMove(sys, s, i) && s' == Next(sys, s, i, late)
  }

  ghost predicate Steps(sys: System, s: State, s': State) { exists i: nat, late :: Moves(sys, s, s', i, late) }

  ghost predicate Run(sys: System, ss: seq<State>) {
    && ss != [] && ss[0] == Initial(sys)
    && forall n, m :: 0 <= n && m == n + 1 < |ss| ==> Steps(sys, ss[n], ss[m])
  }

  ghost predicate Finished(s: State) { forall i :: 0 <= i < |s.pcs| ==> s.pcs[i].Done? }

  // ---- locks: mutual exclusion, no deadlock, termination ----

  ghost predicate KeysHeld(sys: System, s: State) {
    && |s.pcs| == |sys.jobs|
    && (forall k :: k in s.keys ==> s.keys[k] < |s.pcs| && s.pcs[s.keys[k]].InKey() && sys.jobs[s.keys[k]].key == k)
    && (forall i :: 0 <= i < |s.pcs| && s.pcs[i].InKey() ==> sys.jobs[i].key in s.keys && s.keys[sys.jobs[i].key] == i)
  }

  ghost predicate CovHeld(s: State) {
    && (s.cov.Held? ==> s.cov.owner < |s.pcs| && s.pcs[s.cov.owner].InCov())
    && (forall i :: 0 <= i < |s.pcs| && s.pcs[i].InCov() ==> s.cov == Held(i))
  }

  lemma StepKeepsKeys(sys: System, s: State, i: nat, late: set<Key>)
    requires KeysHeld(sys, s) && i < |s.pcs| && CanMove(sys, s, i)
    ensures KeysHeld(sys, Next(sys, s, i, late))
  {
    var s' := Next(sys, s, i, late);
    assert s'.pcs == s.pcs[i := NextPc(sys, s, i, late)] && s'.keys == NextKeys(sys, s, i);
    assert NextPc(sys, s, i, late).InKey() <==> !s.pcs[i].Queued? && !s.pcs[i].Leaving?;
  }

  lemma StepKeepsCov(sys: System, s: State, i: nat, late: set<Key>)
    requires CovHeld(s) && |s.pcs| == |sys.jobs| && i < |s.pcs| && CanMove(sys, s, i)
    ensures CovHeld(Next(sys, s, i, late))
  {
    var s' := Next(sys, s, i, late);
    assert s'.pcs == s.pcs[i := NextPc(sys, s, i, late)] && s'.cov == NextCov(s, i);
    assert NextPc(sys, s, i, late).InCov() <==> s.pcs[i].Recompiled? || s.pcs[i].Written?;
  }

  /** The worker that took the `n`-th step of a run, and what it read late. */
  lemma Mover(sys: System, ss: seq<State>, n: nat) returns (i: nat, late: set<Key>)
    requires Run(sys, ss) && n + 1 < |ss|
    ensures Moves(sys, ss[n], ss[n + 1], i, late)
  {
    assert Steps(sys, ss[n], ss[n + 1]);
    i, late :| Moves(sys, ss[n], ss[n + 1], i, late);
  }

  lemma {:induction false} RunKeepsLocks(sys: System, ss: seq<State>, n: nat)
    requires Run(sys, ss) && n < |ss|
    ensures KeysHeld(sys, ss[n]) && CovHeld(ss[n])
  {
    if n > 0 {
      RunKeepsLocks(sys, ss, n - 1);
      var i, late := Mover(sys, ss, n - 1);
      StepKeepsKeys(sys, ss[n - 1], i, late);
      StepKeepsCov(sys, ss[n - 1], i, late);
    }
  }

  /** At most one worker at a time is between taking and releasing the lock of a key,
      so each file name has at most one writer. */
  lemma OneWriterPerFile(sys: System, ss: seq<State>, n: nat, i: nat, j: nat)
    requires Run(sys, ss) && n < |ss| && i < |ss[n].pcs| && j < |ss[n].pcs| && |ss[n].pcs| == |sys.jobs|
    requires ss[n].pcs[i].InKey() && ss[n].pcs[j].InKey() && sys.jobs[i].key == sys.jobs[j].key
    ensures i == j
  {
    RunKeepsLocks(sys, ss, n);
  }

  /** Some worker can always move, until all are done. */
  lemma NoDeadlock(sys: System, ss: seq<State>) returns (s': State)
    requires Run(sys, ss) && sys.workers > 0 && !Finished(ss[|ss| - 1])
    ensures Steps(sys, ss[|ss| - 1], s')
  {
    var s := ss[|ss| - 1];
    RunKeepsLocks(sys, ss, |ss| - 1);
    var i := Movable(sys, s);
    s' := Next(sys, s, i, {});
    assert Moves(sys, s, s', i, {});
  }

  lemma Movable(sys: System, s: State) returns (i: nat)
    requires KeysHeld(sys, s) && CovHeld(s) && sys.workers > 0 && !Finished(s)
    ensures i < |s.pcs| && CanMove(sys, s, i)
  {
    if s.cov.Held? { return s.cov.owner; }
    if j: nat :| j < |s.pcs| && s.pcs[j].InKey() { return j; }
    if j: nat :| j < |s.pcs| && s.pcs[j].Waiting? { return j; }
    i :| i < |s.pcs| && !s.pcs[i].Done?;
    if ActiveSet(s) != {} { var x := Collections.Member(ActiveSet(s)); }
  }

  /** The pool never runs more captures at once than it has workers. */
  lemma {:induction false} PoolBound(sys: System, ss: seq<State>, n: nat)
    requires Run(sys, ss) && n < |ss|
    ensures |ActiveSet(ss[n])| <= sys.workers
  {
    if n == 0 {
      var none: set<nat> := {};
      Collections.SubsetSize(ActiveSet(ss[0]), none);
    } else {
      PoolBound(sys, ss, n - 1);
      var i, late := Mover(sys, ss, n - 1);
      var before, after := ActiveSet(ss[n - 1]), ActiveSet(ss[n]);
      Collections.SubsetSize(after, if ss[n - 1].pcs[i].Queued? then before + {i} else before);
    }
  }

  function TotalRank(pcs: seq<Pc>): nat { if pcs == [] then 0 else pcs[0].Rank() + TotalRank(pcs[1..]) }

  lemma {:induction false} RankUpdate(pcs: seq<Pc>, i: nat, pc: Pc)
    requires i < |pcs|
    ensures TotalRank(pcs[i := pc]) == TotalRank(pcs) - pcs[i].Rank() + pc.Rank()
  {
    if i == 0 {
      assert pcs[i := pc][1..] == pcs[1..];
    } else {
      assert pcs[i := pc][1..] == pcs[1..][i - 1 := pc];
      RankUpdate(pcs[1..], i - 1, pc);
    }
  }

  lemma StepLowersRank(sys: System, s: State, i: nat, late: set<Key>)
    requires |s.pcs| == |sys.jobs| && i < |s.pcs| && CanMove(sys, s, i)
    ensures TotalRank(Next(sys, s, i, late).pcs) < TotalRank(s.pcs)
  {
    RankUpdate(s.pcs, i, NextPc(sys, s, i, late));
  }

  /** Every step lowers the total rank, so no run is longer than it. */
  lemma {:induction false} RunsAreBounded(sys: System, ss: seq<State>, n: nat)
    requires Run(sys, ss) && n < |ss|
    ensures TotalRank(ss[n].pcs) + n <= TotalRank(Initial(sys).pcs)
  {
    if n > 0 {
      RunsAreBounded(sys, ss, n - 1);
      var i, late := Mover(sys, ss, n - 1);
      StepLowersRank(sys, ss[n - 1], i, late);
    }
  }

  // ---- what ends up on disk ----

  /** No two captures share an output file. */
  ghost predicate Distinct(sys: System) {
    forall i, j :: 0 <= i < |sys.jobs| && 0 <= j < |sys.jobs| && sys.jobs[i].key == sys.jobs[j].key ==> i == j
  }

  ghost function Yield(sys: System, j: nat): Outcome
    requires j < |sys.jobs|
  {
    sys.jobs[j].recompile(sys.disk.Prior(sys.jobs[j].key))
  }

  ghost predicate Eligible(sys: System, j: nat)
    requires j < |sys.jobs|
  {
    Yield(sys, j).Ids? && sys.jobs[j].key !in sys.disk.dlls
  }

  /** The capture recompiles and compiles to at least one identity, and had no DLL. */
  ghost predicate Contributes(sys: System, j: nat)
    requires j < |sys.jobs|
  {
    Eligible(sys, j) && sys.jobs[j].compiles && Yield(sys, j).ids != {}
  }

  ghost predicate Listed(d: Disk, p: int, x: Id) { exists k :: d.Lists(k, p, x) }

  /** The schedule-free reference: what was there, plus what every contributing capture yields. */
  ghost predicate Expected(sys: System, p: int, x: Id) {
    || Listed(sys.disk, p, x)
    || exists j: nat :: j < |sys.jobs| && Contributes(sys, j) && sys.jobs[j].key.region == p && x in Yield(sys, j).ids
  }

  ghost predicate Wrote(pc: Pc) { pc.Written? || pc.Updating? || pc.Leaving? || pc.Done? }

  /** Worker `j` has written the manifest of `k`. */
  ghost predicate WrittenBy(sys: System, s: State, j: nat, k: Key) {
    && j < |s.pcs| == |sys.jobs| && sys.jobs[j].key == k && Contributes(sys, j) && Wrote(s.pcs[j])
    && k in s.disk.manifests && s.disk.manifests[k] == Yield(sys, j).ids
  }

  ghost predicate New(sys: System, s: State, k: Key) { exists j: nat :: WrittenBy(sys, s, j, k) }

  ghost predicate Old(sys: System, s: State, k: Key) {
    k in sys.disk.manifests && k in s.disk.manifests && s.disk.manifests[k] == sys.disk.manifests[k]
  }

  /** The DLL of `k` belongs to worker `j`. */
  ghost predicate BuiltBy(sys: System, s: State, j: nat, k: Key) {
    j < |s.pcs| == |sys.jobs| && sys.jobs[j].key == k && (Wrote(s.pcs[j]) || s.pcs[j].Built?)
  }

  /** No manifest disappears; one that changed, or is new, belongs to a worker that has
      written it and had no DLL before. */
  ghost predicate DiskInv(sys: System, s: State) {
    && |s.pcs| == |sys.jobs| && sys.disk.dlls <= s.disk.dlls
    && (forall k :: k in sys.disk.manifests ==> k in s.disk.manifests)
    && (forall k :: k in s.disk.manifests ==> Old(sys, s, k) || (New(sys, s, k) && k !in sys.disk.dlls))
    && (forall k :: k in s.disk.dlls && k !in sys.disk.dlls ==> exists j: nat :: BuiltBy(sys, s, j, k))
  }

  /** No contributing capture drops an identity by overwriting the manifest of its key:
      it yields the identity again, or a manifest with its DLL lists it too. */
  ghost predicate Preserving(sys: System) {
    forall j: nat, x :: j < |sys.jobs| && Contributes(sys, j) && x in sys.disk.Prior(sys.jobs[j].key) ==>
      x in Yield(sys, j).ids || sys.disk.Provided(sys.jobs[j].key.region, x)
  }

  /** So it is if every identity on disk is backed by a DLL ... */
  lemma BackedPreserves(sys: System)
    requires sys.disk.Backed()
    ensures Preserving(sys)
  {
    forall j: nat, x | j < |sys.jobs| && x in sys.disk.Prior(sys.jobs[j].key)
      ensures sys.disk.Provided(sys.jobs[j].key.region, x)
    {
      assert sys.disk.Lists(sys.jobs[j].key, sys.jobs[j].key.region, x);
    }
  }

  /** ... and also if recompiling yields again what a prior manifest of the same bytes
      lists, which is what merging its entries into the evidence is for. */
  lemma MergingPreserves(sys: System)
    requires forall j, prior :: 0 <= j < |sys.jobs| && sys.jobs[j].recompile(prior).Ids? ==>
               prior <= sys.jobs[j].recompile(prior).ids
    ensures Preserving(sys)
  {}

  /** Every capture that overwrites the manifest of `k` yields `x` again. */
  ghost predicate Repeated(sys: System, k: Key, x: Id) {
    forall j: nat :: j < |sys.jobs| && sys.jobs[j].key == k && Contributes(sys, j) ==> x in Yield(sys, j).ids
  }

  /** Listed by a manifest from which no step will drop it again. */
  ghost predicate Firm(sys: System, s: State, p: int, x: Id) { exists k :: FirmAt(sys, s, k, p, x) }

  ghost predicate FirmAt(sys: System, s: State, k: Key, p: int, x: Id) {
    s.disk.Lists(k, p, x) && (k in sys.disk.dlls || New(sys, s, k) || Repeated(sys, k, x))
  }

  ghost predicate AllFirm(sys: System, s: State, d: Disk) { forall k, p, x :: d.Lists(k, p, x) ==> Firm(sys, s, p, x) }

  /** The in-memory coverage never claims more than the disk firmly provides. */
  ghost predicate CoverageInv(sys: System, s: State) {
    forall p, x :: p in s.coverage && x in s.coverage[p] ==> Firm(sys, s, p, x)
  }

  ghost predicate JobInv(sys: System, s: State, j: nat)
    requires |s.pcs| == |sys.jobs| && j < |s.pcs|
  {
    match s.pcs[j]
    case Recompiled(ids) => Eligible(sys, j) && ids == Yield(sys, j).ids
    case Checking(ids, seen) => Eligible(sys, j) && ids == Yield(sys, j).ids && AllFirm(sys, s, seen)
    case Building(ids) => Eligible(sys, j) && ids == Yield(sys, j).ids
    case Built(ids) => Contributes(sys, j) && ids == Yield(sys, j).ids
    case Written(ids) => WrittenBy(sys, s, j, sys.jobs[j].key) && ids == Yield(sys, j).ids
    case Updating(ids) => WrittenBy(sys, s, j, sys.jobs[j].key) && ids == Yield(sys, j).ids
    case Leaving => Served(sys, s, j)
    case Done => Served(sys, s, j)
    case _ => true
  }

  /** A contributing capture may leave only when all its identities are on disk. */
  ghost predicate Served(sys: System, s: State, j: nat)
    requires j < |sys.jobs|
  {
    Contributes(sys, j) ==> forall x :: x in Yield(sys, j).ids ==> Firm(sys, s, sys.jobs[j].key.region, x)
  }

  ghost predicate JobsInv(sys: System, s: State) {
    |s.pcs| == |sys.jobs| && forall j: nat :: j < |s.pcs| ==> JobInv(sys, s, j)
  }

  ghost predicate Inv(sys: System, s: State) { DiskInv(sys, s) && CoverageInv(sys, s) && JobsInv(sys, s) }

  /** The files of a worker that has not written them are as they were at the start. */
  lemma OwnFiles(sys: System, s: State, i: nat)
    requires Distinct(sys) && DiskInv(sys, s) && i < |s.pcs| && !Wrote(s.pcs[i])
    ensures s.disk.Prior(sys.jobs[i].key) == sys.disk.Prior(sys.jobs[i].key)
    ensures !s.pcs[i].Built? ==> (sys.jobs[i].key in s.disk.dlls <==> sys.jobs[i].key in sys.disk.dlls)
  {
    var k := sys.jobs[i].key;
    forall j: nat ensures !WrittenBy(sys, s, j, k) {}
    if k in s.disk.dlls && k !in sys.disk.dlls { var j: nat :| BuiltBy(sys, s, j, k); }
  }

  /** `s'` keeps every manifest of `s`, and changes only what a worker had not written yet. */
  ghost predicate Keeps(sys: System, s: State, s': State) {
    && (forall k :: New(sys, s, k) ==> New(sys, s', k) && s'.disk.manifests[k] == s.disk.manifests[k])
    && (forall k :: k in sys.disk.dlls && k in s.disk.manifests ==>
          k in s'.disk.manifests && s'.disk.manifests[k] == s.disk.manifests[k])
    && (forall k :: k in s.disk.manifests ==>
          k in s'.disk.manifests && (s'.disk.manifests[k] == s.disk.manifests[k] || New(sys, s', k)))
  }

  lemma FirmGrows(sys: System, s: State, s': State, p: int, x: Id)
    requires Keeps(sys, s, s') && Firm(sys, s, p, x)
    ensures Firm(sys, s', p, x)
  {
    var k :| FirmAt(sys, s, k, p, x);
    if s'.disk.manifests[k] != s.disk.manifests[k] { var j: nat :| WrittenBy(sys, s', j, k); }
    assert FirmAt(sys, s', k, p, x);
  }

  lemma AllFirmGrows(sys: System, s: State, s': State, d: Disk)
    requires Keeps(sys, s, s') && AllFirm(sys, s, d)
    ensures AllFirm(sys, s', d)
  {
    forall k, p, x | d.Lists(k, p, x) ensures Firm(sys, s', p, x) { FirmGrows(sys, s, s', p, x); }
  }

  /** What the manifests list is firm, if no capture drops an identity. */
  lemma ListedIsFirm(sys: System, s: State, k: Key, p: int, x: Id)
    requires Preserving(sys) && DiskInv(sys, s) && s.disk.Lists(k, p, x)
    ensures Firm(sys, s, p, x)
  {
    if New(sys, s, k) || Repeated(sys, k, x) {
      assert FirmAt(sys, s, k, p, x);
    } else {
      assert x in sys.disk.Prior(k);
      assert sys.disk.Provided(p, x);
      var k' :| k' in sys.disk.dlls && sys.disk.Lists(k', p, x);
      assert Old(sys, s, k');
      assert FirmAt(sys, s, k', p, x);
    }
  }

  lemma DiskIsFirm(sys: System, s: State)
    requires Preserving(sys) && DiskInv(sys, s)
    ensures AllFirm(sys, s, s.disk)
  {
    forall k, p, x | s.disk.Lists(k, p, x) ensures Firm(sys, s, p, x) { ListedIsFirm(sys, s, k, p, x); }
  }

  lemma MixedIsFirm(sys: System, s: State, seen: Disk, late: set<Key>)
    requires AllFirm(sys, s, seen) && AllFirm(sys, s, s.disk)
    ensures AllFirm(sys, s, Mixed(seen, s.disk, late))
  {
    forall k, p, x | Mixed(seen, s.disk, late).Lists(k, p, x) ensures Firm(sys, s, p, x) {
      assert (if k in late then s.disk else seen).Lists(k, p, x);
    }
  }

  lemma StepWrites(sys: System, s: State, i: nat, late: set<Key>, j: nat, k: Key)
    requires Distinct(sys) && Inv(sys, s) && i < |s.pcs| && CanMove(sys, s, i) && WrittenBy(sys, s, j, k)
    ensures WrittenBy(sys, Next(sys, s, i, late), j, k)
    ensures Next(sys, s, i, late).disk.manifests[k] == s.disk.manifests[k]
  {
    assert s.pcs[i].Built? ==> i != j;
  }

  /** The mover's own manifest and DLL. */
  lemma StepFiles(sys: System, s: State, i: nat, late: set<Key>)
    requires Distinct(sys) && Inv(sys, s) && i < |s.pcs| && CanMove(sys, s, i)
    ensures s.pcs[i].Built? ==>
              WrittenBy(sys, Next(sys, s, i, late), i, sys.jobs[i].key) && sys.jobs[i].key !in sys.disk.dlls
    ensures s.pcs[i].Building? && sys.jobs[i].compiles ==> BuiltBy(sys, Next(sys, s, i, late), i, sys.jobs[i].key)
    ensures forall j: nat, k :: BuiltBy(sys, s, j, k) ==> BuiltBy(sys, Next(sys, s, i, late), j, k)
  {
    assert JobInv(sys, s, i);
  }

  lemma StepKeeps(sys: System, s: State, i: nat, late: set<Key>)
    requires Distinct(sys) && Inv(sys, s) && i < |s.pcs| && CanMove(sys, s, i)
    ensures Keeps(sys, s, Next(sys, s, i, late))
  {
    var s' := Next(sys, s, i, late);
    forall k | New(sys, s, k) ensures New(sys, s', k) && s'.disk.manifests[k] == s.disk.manifests[k] {
      var j: nat :| WrittenBy(sys, s, j, k);
      StepWrites(sys, s, i, late, j, k);
    }
    assert JobInv(sys, s, i);
    StepFiles(sys, s, i, late);
    assert s.pcs[i].Built? ==> New(sys, s', sys.jobs[i].key);
  }

  lemma StepKeepsDisk(sys: System, s: State, i: nat, late: set<Key>)
    requires Distinct(sys) && Inv(sys, s) && i < |s.pcs| && CanMove(sys, s, i)
    ensures DiskInv(sys, Next(sys, s, i, late))
  {
    var s', own := Next(sys, s, i, late), sys.jobs[i].key;
    StepKeeps(sys, s, i, late);
    StepFiles(sys, s, i, late);
    forall k | k in s'.disk.manifests ensures Old(sys, s', k) || (New(sys, s', k) && k !in sys.disk.dlls) {
      if s.pcs[i].Built? && k == own { assert New(sys, s', k); }
      else { assert s'.disk.manifests[k] == s.disk.manifests[k]; }
    }
    forall k | k in s'.disk.dlls && k !in sys.disk.dlls ensures exists j: nat :: BuiltBy(sys, s', j, k) {
      if k in s.disk.dlls { var j: nat :| BuiltBy(sys, s, j, k); assert BuiltBy(sys, s', j, k); }
    }
  }

  lemma StepKeepsCoverage(sys: System, s: State, i: nat, late: set<Key>)
    requires Distinct(sys) && Preserving(sys) && Inv(sys, s) && i < |s.pcs| && CanMove(sys, s, i)
    ensures CoverageInv(sys, Next(sys, s, i, late))
  {
    var s', k := Next(sys, s, i, late), sys.jobs[i].key;
    StepKeeps(sys, s, i, late);
    assert JobInv(sys, s, i);
    if s.pcs[i].Checking? { DiskIsFirm(sys, s); MixedIsFirm(sys, s, s.pcs[i].seen, late); }
    forall p, x | p in s'.coverage && x in s'.coverage[p] ensures Firm(sys, s', p, x) {
      if s.pcs[i].Updating? && p == k.region && x in s.pcs[i].ids {
        StepWrites(sys, s, i, late, i, k);
        assert FirmAt(sys, s', k, p, x);
      } else {
        assert Firm(sys, s, p, x);
        FirmGrows(sys, s, s', p, x);
      }
    }
  }

  /** What the mover's own step leaves behind. */
  lemma StepKeepsMover(sys: System, s: State, i: nat, late: set<Key>)
    requires Distinct(sys) && Preserving(sys) && Inv(sys, s) && i < |s.pcs| && CanMove(sys, s, i)
    ensures JobInv(sys, Next(sys, s, i, late), i)
  {
    var s', k := Next(sys, s, i, late), sys.jobs[i].key;
    assert JobInv(sys, s, i);
    if s.pcs[i].Started? { OwnFiles(sys, s, i); }
    if s.pcs[i].Recompiled? { DiskIsFirm(sys, s); StepKeeps(sys, s, i, late); AllFirmGrows(sys, s, s', s.disk); }
    if s.pcs[i].Built? { StepFiles(sys, s, i, late); }
    if s.pcs[i].Written? || s.pcs[i].Updating? { StepWrites(sys, s, i, late, i, k); }
    if s'.pcs[i].Leaving? || s'.pcs[i].Done? { StepServes(sys, s, i, late); }
  }

  lemma StepServes(sys: System, s: State, i: nat, late: set<Key>)
    requires Distinct(sys) && Preserving(sys) && Inv(sys, s) && i < |s.pcs| && CanMove(sys, s, i)
    requires NextPc(sys, s, i, late).Leaving? || NextPc(sys, s, i, late).Done?
    ensures Served(sys, Next(sys, s, i, late), i)
  {
    var s', k := Next(sys, s, i, late), sys.jobs[i].key;
    assert JobInv(sys, s, i);
    if Contributes(sys, i) {
      if s.pcs[i].Started? { OwnFiles(sys, s, i); }
      StepKeepsCoverage(sys, s, i, late);
      StepKeeps(sys, s, i, late);
      forall x | x in Yield(sys, i).ids ensures Firm(sys, s', k.region, x) {
        if s.pcs[i].Leaving? { FirmGrows(sys, s, s', k.region, x); } else { assert x in s'.coverage[k.region]; }
      }
    }
  }

  lemma StepKeepsJobs(sys: System, s: State, i: nat, late: set<Key>)
    requires Distinct(sys) && Preserving(sys) && Inv(sys, s) && i < |s.pcs| && CanMove(sys, s, i)
    ensures JobsInv(sys, Next(sys, s, i, late))
  {
    var s' := Next(sys, s, i, late);
    StepKeeps(sys, s, i, late);
    forall j: nat | j < |s'.pcs| ensures JobInv(sys, s', j) {
      if j == i {
        StepKeepsMover(sys, s, i, late);
      } else {
        assert JobInv(sys, s, j) && s'.pcs[j] == s.pcs[j];
        if s.pcs[j].Written? || s.pcs[j].Updating? { StepWrites(sys, s, i, late, j, sys.jobs[j].key); }
        if s.pcs[j].Checking? { AllFirmGrows(sys, s, s', s.pcs[j].seen); }
        ServedGrows(sys, s, s', j);
      }
    }
  }

  lemma ServedGrows(sys: System, s: State, s': State, j: nat)
    requires Keeps(sys, s, s') && j < |sys.jobs|
    ensures Served(sys, s, j) ==> Served(sys, s', j)
  {
    if Served(sys, s, j) && Contributes(sys, j) {
      forall x | x in Yield(sys, j).ids ensures Firm(sys, s', sys.jobs[j].key.region, x) {
        FirmGrows(sys, s, s', sys.jobs[j].key.region, x);
      }
    }
  }

  lemma {:induction false} RunKeepsInv(sys: System, ss: seq<State>, n: nat)
    requires Distinct(sys) && Preserving(sys) && Run(sys, ss) && n < |ss|
    ensures Inv(sys, ss[n])
  {
    if n > 0 {
      RunKeepsInv(sys, ss, n - 1);
      var i, late := Mover(sys, ss, n - 1);
      StepKeepsDisk(sys, ss[n - 1], i, late);
      StepKeepsCoverage(sys, ss[n - 1], i, late);
      StepKeepsJobs(sys, ss[n - 1], i, late);
    }
  }

  lemma ListedIsExpected(sys: System, s: State, p: int, x: Id)
    requires DiskInv(sys, s) && Listed(s.disk, p, x)
    ensures Expected(sys, p, x)
  {
    var k :| s.disk.Lists(k, p, x);
    if Old(sys, s, k) {
      assert sys.disk.Lists(k, p, x);
    } else {
      var j: nat :| WrittenBy(sys, s, j, k);
    }
  }

  lemma StaysListed(sys: System, s: State, p: int, x: Id)
    requires Preserving(sys) && DiskInv(sys, s) && Listed(sys.disk, p, x)
    ensures Listed(s.disk, p, x)
  {
    var k :| sys.disk.Lists(k, p, x);
    if Old(sys, s, k) {
      assert s.disk.Lists(k, p, x);
    } else {
      var j: nat :| WrittenBy(sys, s, j, k);
      assert x in sys.disk.Prior(sys.jobs[j].key);
      if x in Yield(sys, j).ids {
        assert s.disk.Lists(k, p, x);
      } else {
        var k' :| k' in sys.disk.dlls && sys.disk.Lists(k', p, x);
        assert Old(sys, s, k') && s.disk.Lists(k', p, x);
      }
    }
  }

  lemma FinalIdentities(sys: System, s: State, p: int, x: Id)
    requires Preserving(sys) && Inv(sys, s) && Finished(s)
    ensures Listed(s.disk, p, x) <==> Expected(sys, p, x)
  {
    if Listed(s.disk, p, x) { ListedIsExpected(sys, s, p, x); }
    if Listed(sys.disk, p, x) {
      StaysListed(sys, s, p, x);
    } else if Expected(sys, p, x) {
      var j: nat :| j < |sys.jobs| && Contributes(sys, j) && sys.jobs[j].key.region == p && x in Yield(sys, j).ids;
      assert JobInv(sys, s, j);
      var k :| FirmAt(sys, s, k, p, x);
    }
  }

  /** Schedule independence: every finished run leaves exactly the expected identities. */
  lemma EveryScheduleAgrees(sys: System, ss: seq<State>, p: int, x: Id)
    requires Distinct(sys) && Preserving(sys) && Run(sys, ss) && Finished(ss[|ss| - 1])
    ensures Listed(ss[|ss| - 1].disk, p, x) <==> Expected(sys, p, x)
  {
    RunKeepsInv(sys, ss, |ss| - 1);
    FinalIdentities(sys, ss[|ss| - 1], p, x);
  }

  /** At every moment, what the coverage claims is on disk. */
  lemma CoverageIsOnDisk(sys: System, ss: seq<State>, n: nat, p: int, x: Id)
    requires Distinct(sys) && Preserving(sys) && Run(sys, ss) && n < |ss|
    requires p in ss[n].coverage && x in ss[n].coverage[p]
    ensures x in ss[n].disk.Region(p)
  {
    RunKeepsInv(sys, ss, n);
    var k :| FirmAt(sys, ss[n], k, p, x);
  }

  // ---- the sequential driver ----

  datatype Cache = Cache(disk: Disk, coverage: map<int, set<Id>>)

  /** One capture from start to finish. */
  function DoCapture(job: Job, c: Cache): Cache {
    var k, r := job.key, job.recompile(c.disk.Prior(job.key));
    if !r.Ids? || k in c.disk.dlls then c
    else
      var cov := if k.region in c.coverage then c.coverage else c.coverage[k.region := c.disk.Region(k.region)];
      if (r.ids != {} && r.ids <= cov[k.region]) || !job.compiles then c.(coverage := cov)
      else if r.ids == {} then Cache(c.disk.(dlls := c.disk.dlls + {k}), cov)
      else Cache(Disk(c.disk.manifests[k := r.ids], c.disk.dlls + {k}), cov[k.region := cov[k.region] + r.ids])
  }

  /** The captures one after the other. */
  function DoAll(jobs: seq<Job>, c: Cache): Cache {
    if jobs == [] then c else DoCapture(jobs[|jobs| - 1], DoAll(jobs[..|jobs| - 1], c))
  }

  /** The protocol state in which the first `n` workers are done and the others queued. */
  ghost function AsState(sys: System, c: Cache, n: nat): State {
    State(c.disk, c.coverage, map[], Free, seq(|sys.jobs|, i => if i < n then Done else Queued))
  }

  lemma DoCaptureFiles(sys: System, c: Cache, n: nat)
    requires Distinct(sys) && n < |sys.jobs| && Inv(sys, AsState(sys, c, n))
    ensures sys.jobs[n].recompile(c.disk.Prior(sys.jobs[n].key)) == Yield(sys, n)
    ensures sys.jobs[n].key in c.disk.dlls <==> sys.jobs[n].key in sys.disk.dlls
  {
    OwnFiles(sys, AsState(sys, c, n), n);
  }

  lemma DoCaptureWrites(sys: System, c: Cache, n: nat, j: nat, k: Key)
    requires Distinct(sys) && n < |sys.jobs| && WrittenBy(sys, AsState(sys, c, n), j, k)
    ensures WrittenBy(sys, AsState(sys, DoCapture(sys.jobs[n], c), n + 1), j, k)
    ensures DoCapture(sys.jobs[n], c).disk.manifests[k] == c.disk.manifests[k]
  {
    assert AsState(sys, c, n).pcs[j].Done? && j < n;
  }

  lemma DoCaptureKeeps(sys: System, c: Cache, n: nat)
    requires Distinct(sys) && n < |sys.jobs| && Inv(sys, AsState(sys, c, n))
    ensures Keeps(sys, AsState(sys, c, n), AsState(sys, DoCapture(sys.jobs[n], c), n + 1))
  {
    var s, s' := AsState(sys, c, n), AsState(sys, DoCapture(sys.jobs[n], c), n + 1);
    forall k | New(sys, s, k) ensures New(sys, s', k) && s'.disk.manifests[k] == s.disk.manifests[k] {
      var j: nat :| WrittenBy(sys, s, j, k);
      DoCaptureWrites(sys, c, n, j, k);
    }
    DoCaptureFiles(sys, c, n);
    forall k | k in s.disk.manifests
      ensures k in s'.disk.manifests && (s'.disk.manifests[k] == s.disk.manifests[k] || New(sys, s', k))
    {
      if s'.disk.manifests[k] != s.disk.manifests[k] { assert WrittenBy(sys, s', n, k); }
    }
  }

  lemma DoCaptureCovers(sys: System, c: Cache, n: nat)
    requires Distinct(sys) && Preserving(sys) && n < |sys.jobs| && Inv(sys, AsState(sys, c, n))
    ensures CoverageInv(sys, AsState(sys, DoCapture(sys.jobs[n], c), n + 1))
    ensures Served(sys, AsState(sys, DoCapture(sys.jobs[n], c), n + 1), n)
  {
    var c', k := DoCapture(sys.jobs[n], c), sys.jobs[n].key;
    var s, s' := AsState(sys, c, n), AsState(sys, c', n + 1);
    DoCaptureFiles(sys, c, n);
    DoCaptureKeeps(sys, c, n);
    forall p, x | p in s'.coverage && x in s'.coverage[p] ensures Firm(sys, s', p, x) {
      if (p in s.coverage && x in s.coverage[p]) || (p == k.region && p !in s.coverage && x in s.disk.Region(p)) {
        if p !in s.coverage { DiskIsFirm(sys, s); }
        FirmGrows(sys, s, s', p, x);
      } else {
        assert WrittenBy(sys, s', n, k);
        assert FirmAt(sys, s', k, p, x);
      }
    }
    if Contributes(sys, n) {
      forall x | x in Yield(sys, n).ids ensures Firm(sys, s', k.region, x) { assert x in c'.coverage[k.region]; }
    }
  }

  lemma DoCaptureDisk(sys: System, c: Cache, n: nat)
    requires Distinct(sys) && n < |sys.jobs| && Inv(sys, AsState(sys, c, n))
    ensures DiskInv(sys, AsState(sys, DoCapture(sys.jobs[n], c), n + 1))
  {
    var c', own := DoCapture(sys.jobs[n], c), sys.jobs[n].key;
    var s, s' := AsState(sys, c, n), AsState(sys, c', n + 1);
    DoCaptureFiles(sys, c, n);
    DoCaptureKeeps(sys, c, n);
    forall k | k in s'.disk.manifests ensures Old(sys, s', k) || (New(sys, s', k) && k !in sys.disk.dlls) {
      if k in c.disk.manifests && c'.disk.manifests[k] == c.disk.manifests[k] {
        assert Old(sys, s, k) || New(sys, s, k);
      } else {
        assert WrittenBy(sys, s', n, own);
      }
    }
    forall k | k in s'.disk.dlls && k !in sys.disk.dlls ensures exists j: nat :: BuiltBy(sys, s', j, k) {
      if k in c.disk.dlls {
        var j: nat :| BuiltBy(sys, s, j, k);
        assert BuiltBy(sys, s', j, k);
      } else {
        assert BuiltBy(sys, s', n, own);
      }
    }
  }

  lemma DoCaptureKeepsInv(sys: System, c: Cache, n: nat)
    requires Distinct(sys) && Preserving(sys) && n < |sys.jobs| && Inv(sys, AsState(sys, c, n))
    ensures Inv(sys, AsState(sys, DoCapture(sys.jobs[n], c), n + 1))
  {
    var s, s' := AsState(sys, c, n), AsState(sys, DoCapture(sys.jobs[n], c), n + 1);
    DoCaptureDisk(sys, c, n);
    DoCaptureCovers(sys, c, n);
    DoCaptureKeeps(sys, c, n);
    forall j: nat | j < |s'.pcs| ensures JobInv(sys, s', j) {
      assert JobInv(sys, s, j);
      ServedGrows(sys, s, s', j);
    }
  }

  lemma {:induction false} DoAllKeepsInv(sys: System, n: nat)
    requires Distinct(sys) && Preserving(sys) && n <= |sys.jobs|
    ensures Inv(sys, AsState(sys, DoAll(sys.jobs[..n], Cache(sys.disk, map[])), n))
  {
    if n > 0 {
      DoAllKeepsInv(sys, n - 1);
      assert sys.jobs[..n][..n - 1] == sys.jobs[..n - 1];
      DoCaptureKeepsInv(sys, DoAll(sys.jobs[..n - 1], Cache(sys.disk, map[])), n - 1);
    }
  }

  /** The sequential driver leaves the same identities as every schedule. */
  lemma SequentialAgrees(sys: System, p: int, x: Id)
    requires Distinct(sys) && Preserving(sys)
    ensures Listed(DoAll(sys.jobs, Cache(sys.disk, map[])).disk, p, x) <==> Expected(sys, p, x)
  {
    DoAllKeepsInv(sys, |sys.jobs|);
    assert sys.jobs[..|sys.jobs|] == sys.jobs;
    FinalIdentities(sys, AsState(sys, DoAll(sys.jobs, Cache(sys.disk, map[])), |sys.jobs|), p, x);
  }

  method RunSequential(jobs: seq<Job>, disk: Disk) returns (c: Cache)
    ensures c == DoAll(jobs, Cache(disk, map[]))
    ensures Distinct(System(jobs, 1, disk)) && Preserving(System(jobs, 1, disk)) ==>
              forall p, x :: Listed(c.disk, p, x) <==> Expected(System(jobs, 1, disk), p, x)
  {
    c := Cache(disk, map[]);
    for n := 0 to |jobs|
      invariant c == DoAll(jobs[..n], Cache(disk, map[]))
    {
      assert jobs[..n + 1][..n] == jobs[..n];
      c := DoCapture(jobs[n], c);
    }
    assert jobs[..|jobs|] == jobs;
    ghost var sys := System(jobs, 1, disk);
    if Distinct(sys) && Preserving(sys) {
      forall p, x ensures Listed(c.disk, p, x) <==> Expected(sys, p, x) { SequentialAgrees(sys, p, x); }
    }
  }
}
