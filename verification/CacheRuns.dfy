/** Which DLLs the runs of the cache protocol build: with one worker those of the sequential
    driver, and in every interleaving those whose coverage check failed. */
module CacheRuns {
  import opened CacheProtocol

  // ---- one worker, captures in order ----

  /** No capture has been taken before an earlier one. */
  ghost predicate InOrder(s: State) {
    forall i, j :: 0 <= j < i < |s.pcs| && !s.pcs[i].Queued? ==> !s.pcs[j].Queued?
  }

  /** What the sequential driver has after the first `n` captures. */
  function After(sys: System, n: nat): Cache
    requires n <= |sys.jobs|
  {
    DoAll(sys.jobs[..n], Cache(sys.disk, map[]))
  }

  lemma AfterNext(sys: System, n: nat)
    requires n < |sys.jobs|
    ensures After(sys, n + 1) == DoCapture(sys.jobs[n], After(sys, n))
  {
    assert sys.jobs[..n + 1][..n] == sys.jobs[..n];
  }

  /** The coverage once the region of `k` is loaded from `c`. */
  function Known(c: Cache, p: int): map<int, set<Id>> {
    if p in c.coverage then c.coverage else c.coverage[p := c.disk.Region(p)]
  }

  /** The capture recompiles to `ids` and has no DLL yet. */
  predicate Recompiles(job: Job, c: Cache, ids: set<Id>) {
    job.recompile(c.disk.Prior(job.key)) == Ids(ids) && job.key !in c.disk.dlls
  }

  predicate Uncovered(job: Job, c: Cache, ids: set<Id>) {
    Recompiles(job, c, ids) && !(ids != {} && ids <= Known(c, job.key.region)[job.key.region])
  }

  /** Files and coverage while a capture is at `pc`, if they were `c` when it was taken. */
  predicate Midway(job: Job, c: Cache, pc: Pc, disk: Disk, coverage: map<int, set<Id>>) {
    var k := job.key;
    match pc
    case Queued => disk == c.disk && coverage == c.coverage
    case Waiting => disk == c.disk && coverage == c.coverage
    case Started => disk == c.disk && coverage == c.coverage
    case Recompiled(ids) => disk == c.disk && coverage == c.coverage && Recompiles(job, c, ids)
    case Checking(ids, seen) => disk == c.disk == seen && coverage == c.coverage && Recompiles(job, c, ids)
    case Building(ids) => disk == c.disk && coverage == Known(c, k.region) && Uncovered(job, c, ids)
    case Built(ids) =>
      && disk == c.disk.(dlls := c.disk.dlls + {k}) && coverage == Known(c, k.region)
      && Uncovered(job, c, ids) && job.compiles && ids != {}
    case Written(ids) =>
      && disk == Disk(c.disk.manifests[k := ids], c.disk.dlls + {k}) && coverage == Known(c, k.region)
      && Uncovered(job, c, ids) && job.compiles && ids != {}
    case Updating(ids) =>
      && disk == Disk(c.disk.manifests[k := ids], c.disk.dlls + {k}) && coverage == Known(c, k.region)
      && Uncovered(job, c, ids) && job.compiles && ids != {}
    case Leaving => Cache(disk, coverage) == DoCapture(job, c)
    case Done => false
  }

  /** The first `n` captures are done, capture `n` is under way or next, the others wait. */
  ghost predicate Stage(sys: System, s: State, n: nat) {
    && |s.pcs| == |sys.jobs| && n <= |s.pcs|
    && (forall i :: 0 <= i < n ==> s.pcs[i].Done?)
    && (forall i :: n < i < |s.pcs| ==> s.pcs[i].Queued?)
    && (n == |s.pcs| ==> Cache(s.disk, s.coverage) == After(sys, n))
    && (n < |s.pcs| ==> Midway(sys.jobs[n], After(sys, n), s.pcs[n], s.disk, s.coverage))
  }

  /** Nothing changes while a load reads it, so it reads the files as they are. */
  lemma MixedSame(d: Disk, late: set<Key>, p: int)
    ensures Mixed(d, d, late).Region(p) == d.Region(p)
  {
    assert Mixed(d, d, late).manifests == d.manifests;
    assert forall k, x :: Mixed(d, d, late).Lists(k, p, x) <==> d.Lists(k, p, x);
    assert forall x :: x in Mixed(d, d, late).Region(p) <==> x in d.Region(p);
  }

  lemma StageMoves(sys: System, s: State, n: nat, late: set<Key>)
    requires Stage(sys, s, n) && n < |s.pcs| && CanMove(sys, s, n)
    ensures Stage(sys, Next(sys, s, n, late), if s.pcs[n].Leaving? then n + 1 else n)
  {
    var s', job, c := Next(sys, s, n, late), sys.jobs[n], After(sys, n);
    AfterNext(sys, n);
    MixedSame(s.disk, late, job.key.region);
    match s.pcs[n]
    case Leaving => assert forall i :: 0 <= i < n + 1 ==> s'.pcs[i].Done?;
    case Updating(ids) =>
      assert s'.coverage == Known(c, job.key.region)[job.key.region := Known(c, job.key.region)[job.key.region] + ids];
    case _ =>
  }

  /** With one worker, whoever moves is the capture of the stage. */
  lemma OneMoves(sys: System, s: State, n: nat, i: nat, late: set<Key>)
    requires Stage(sys, s, n) && sys.workers == 1 && i < |s.pcs| && CanMove(sys, s, i)
    requires InOrder(Next(sys, s, i, late))
    ensures i == n
  {
    if n < |s.pcs| && !s.pcs[n].Queued? && !s.pcs[n].Done? { assert n in ActiveSet(s); }
    var pcs' := Next(sys, s, i, late).pcs;
    assert !pcs'[i].Queued?;
    var there := pcs'[n];
  }

  lemma {:induction false} RunStages(sys: System, ss: seq<State>, m: nat) returns (n: nat)
    requires Run(sys, ss) && sys.workers == 1 && m < |ss| && forall q :: 0 <= q < |ss| ==> InOrder(ss[q])
    ensures Stage(sys, ss[m], n)
  {
    n := 0;
    if m > 0 {
      n := RunStages(sys, ss, m - 1);
      var i, late := Mover(sys, ss, m - 1);
      OneMoves(sys, ss[m - 1], n, i, late);
      StageMoves(sys, ss[m - 1], n, late);
      if ss[m - 1].pcs[n].Leaving? { n := n + 1; }
    }
  }

  /** Every finished run of one worker that takes the captures in order leaves the files,
      DLLs included, and the coverage of the sequential driver. */
  lemma OneWorkerIsSequential(sys: System, ss: seq<State>)
    requires Run(sys, ss) && sys.workers == 1 && (forall q :: 0 <= q < |ss| ==> InOrder(ss[q]))
    requires Finished(ss[|ss| - 1])
    ensures Cache(ss[|ss| - 1].disk, ss[|ss| - 1].coverage) == DoAll(sys.jobs, Cache(sys.disk, map[]))
  {
    var n := RunStages(sys, ss, |ss| - 1);
    assert sys.jobs[..|sys.jobs|] == sys.jobs;
  }

  lemma StageCanMove(sys: System, s: State, n: nat)
    requires Stage(sys, s, n) && n < |s.pcs| && KeysHeld(sys, s) && CovHeld(s) && sys.workers == 1
    ensures CanMove(sys, s, n)
  {
    if s.pcs[n].Queued? { assert ActiveSet(s) == {}; }
  }

  lemma {:induction false} Finish(sys: System, ss: seq<State>, n: nat) returns (done: seq<State>)
    requires Run(sys, ss) && sys.workers == 1 && (forall q :: 0 <= q < |ss| ==> InOrder(ss[q]))
    requires Stage(sys, ss[|ss| - 1], n)
    ensures Run(sys, done) && (forall q :: 0 <= q < |done| ==> InOrder(done[q])) && Finished(done[|done| - 1])
    decreases TotalRank(ss[|ss| - 1].pcs)
  {
    var s := ss[|ss| - 1];
    if n == |s.pcs| { return ss; }
    RunKeepsLocks(sys, ss, |ss| - 1);
    StageCanMove(sys, s, n);
    StageMoves(sys, s, n, {});
    StepLowersRank(sys, s, n, {});
    var s' := Next(sys, s, n, {});
    assert Moves(sys, s, s', n, {});
    done := Finish(sys, ss + [s'], if s.pcs[n].Leaving? then n + 1 else n);
  }

  /** There is such a run. */
  lemma OneWorkerFinishes(sys: System) returns (ss: seq<State>)
    requires sys.workers == 1
    ensures Run(sys, ss) && (forall q :: 0 <= q < |ss| ==> InOrder(ss[q])) && Finished(ss[|ss| - 1])
  {
    ss := Finish(sys, [Initial(sys)], 0);
  }

  // ---- any number of workers ----

  /** The region's coverage holds the identities, and there are some. */
  predicate Covers(coverage: map<int, set<Id>>, p: int, ids: set<Id>) {
    ids != {} && p in coverage && ids <= coverage[p]
  }

  /** Only the worker of a DLL adds it, and only by compiling; coverage only grows. */
  lemma StepAdds(sys: System, s: State, i: nat, late: set<Key>, j: nat)
    requires Distinct(sys) && |s.pcs| == |sys.jobs| && i < |s.pcs| && CanMove(sys, s, i) && j < |s.pcs|
    ensures sys.jobs[j].key in Next(sys, s, i, late).disk.dlls
       <==> (sys.jobs[j].key in s.disk.dlls || (i == j && s.pcs[j].Building? && sys.jobs[j].compiles))
    ensures forall p, ids :: Covers(s.coverage, p, ids) ==> Covers(Next(sys, s, i, late).coverage, p, ids)
  {
    if s.pcs[i].Building? && i != j { assert sys.jobs[i].key != sys.jobs[j].key; }
  }

  lemma {:induction false} PcsStay(sys: System, ss: seq<State>, n: nat)
    requires Run(sys, ss) && n < |ss|
    ensures |ss[n].pcs| == |sys.jobs|
  {
    if n > 0 { var i, late := Mover(sys, ss, n - 1); }
  }

  /** A worker whose identities the region's coverage holds when it has the coverage lock
      never adds its DLL. */
  lemma {:induction false} CoveredNeverBuilds(sys: System, ss: seq<State>, n: nat, m: nat, i: nat)
    requires Distinct(sys) && Run(sys, ss) && n <= m < |ss| && i < |ss[n].pcs| == |sys.jobs|
    requires ss[n].pcs[i].Checking? && Covers(ss[n].coverage, sys.jobs[i].key.region, ss[n].pcs[i].ids)
    ensures |ss[m].pcs| == |sys.jobs|
    ensures sys.jobs[i].key in ss[m].disk.dlls <==> sys.jobs[i].key in ss[n].disk.dlls
    ensures (|| ss[m].pcs[i].Leaving? || ss[m].pcs[i].Done?
             || (ss[m].pcs[i] == ss[n].pcs[i] && Covers(ss[m].coverage, sys.jobs[i].key.region, ss[n].pcs[i].ids)))
  {
    if n < m {
      CoveredNeverBuilds(sys, ss, n, m - 1, i);
      var mover, late := Mover(sys, ss, m - 1);
      StepAdds(sys, ss[m - 1], mover, late, i);
    }
  }

  /** Step `n` is worker `i`'s coverage check, and the coverage it leaves, the region's
      loaded if it was not, does not hold the worker's identities. */
  ghost predicate FailsCheck(sys: System, ss: seq<State>, n: nat, i: nat) {
    && n + 1 < |ss| && i < |ss[n].pcs| == |sys.jobs| && |ss[n + 1].pcs| == |sys.jobs|
    && ss[n].pcs[i].Checking? && !ss[n + 1].pcs[i].Checking?
    && !Covers(ss[n + 1].coverage, sys.jobs[i].key.region, ss[n].pcs[i].ids)
  }

  ghost predicate Failed(sys: System, ss: seq<State>, m: nat, i: nat) {
    exists n: nat :: n < m && FailsCheck(sys, ss, n, i)
  }

  /** What worker `i` has done by state `m`. */
  ghost predicate Track(sys: System, ss: seq<State>, m: nat, i: nat)
    requires m < |ss| && i < |ss[m].pcs| == |sys.jobs|
  {
    var pc, k := ss[m].pcs[i], sys.jobs[i].key;
    && (pc.Rank() >= 8 ==> !Failed(sys, ss, m, i) && (k in ss[m].disk.dlls <==> k in sys.disk.dlls))
    && (pc.Recompiled? || pc.Checking? ==> !Failed(sys, ss, m, i) && k !in ss[m].disk.dlls && k !in sys.disk.dlls)
    && (pc.Building? ==> Failed(sys, ss, m, i) && k !in ss[m].disk.dlls && k !in sys.disk.dlls)
    && (pc.Built? || pc.Written? || pc.Updating? ==>
          Failed(sys, ss, m, i) && k in ss[m].disk.dlls && sys.jobs[i].compiles)
    && (pc.Leaving? || pc.Done? ==>
          (k in ss[m].disk.dlls <==> k in sys.disk.dlls || (sys.jobs[i].compiles && Failed(sys, ss, m, i))))
  }

  lemma FailedNext(sys: System, ss: seq<State>, m: nat, i: nat)
    ensures Failed(sys, ss, m + 1, i) <==> Failed(sys, ss, m, i) || FailsCheck(sys, ss, m, i)
  {
    if n: nat :| n < m && FailsCheck(sys, ss, n, i) { assert n < m + 1; }
    if FailsCheck(sys, ss, m, i) { assert m < m + 1; }
  }

  /** One step later. */
  lemma TrackMoves(sys: System, ss: seq<State>, m: nat, i: nat, mover: nat, late: set<Key>)
    requires Distinct(sys) && m + 1 < |ss| && i < |ss[m].pcs| == |sys.jobs| && Track(sys, ss, m, i)
    requires Moves(sys, ss[m], ss[m + 1], mover, late)
    ensures Track(sys, ss, m + 1, i)
  {
    StepAdds(sys, ss[m], mover, late, i);
    FailedNext(sys, ss, m, i);
    if mover != i {
      assert ss[m + 1].pcs[i] == ss[m].pcs[i];
    }
  }

  lemma {:induction false} RunTracks(sys: System, ss: seq<State>, m: nat, i: nat)
    requires Distinct(sys) && Run(sys, ss) && m < |ss| && i < |sys.jobs|
    ensures |ss[m].pcs| == |sys.jobs| && Track(sys, ss, m, i)
  {
    if m > 0 {
      RunTracks(sys, ss, m - 1, i);
      var mover, late := Mover(sys, ss, m - 1);
      TrackMoves(sys, ss, m - 1, i, mover, late);
    }
  }

  /** Every finished run has the DLLs that were there and those of the captures that
      compile and whose coverage check failed. */
  lemma DllIff(sys: System, ss: seq<State>, i: nat)
    requires Distinct(sys) && Run(sys, ss) && Finished(ss[|ss| - 1]) && i < |sys.jobs|
    ensures sys.jobs[i].key in ss[|ss| - 1].disk.dlls
       <==> (|| sys.jobs[i].key in sys.disk.dlls
             || (sys.jobs[i].compiles && exists n: nat :: FailsCheck(sys, ss, n, i)))
  {
    RunTracks(sys, ss, |ss| - 1, i);
    if n: nat :| FailsCheck(sys, ss, n, i) { assert n < |ss| - 1; }
  }
}
