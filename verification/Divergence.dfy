/** The RAM divergence scan: maximal runs of differing bytes, never silently truncated counts. */
module Divergence {
  import opened Mips

  datatype Run = Run(start: int, end: int)

  datatype Exclusion = Exclusion(addr: int, len: int)

  function Shared(a: seq<Byte>, b: seq<Byte>): nat { if |a| < |b| then |a| else |b| }

  predicate Differ(a: seq<Byte>, b: seq<Byte>, i: int) { 0 <= i < Shared(a, b) && a[i] != b[i] }

  /** A maximal run of differing positions. */
  ghost predicate Maximal(a: seq<Byte>, b: seq<Byte>, r: Run) {
    && 0 <= r.start < r.end <= Shared(a, b)
    && (forall i :: r.start <= i < r.end ==> Differ(a, b, i))
    && !Differ(a, b, r.start - 1) && !Differ(a, b, r.end)
  }

  function CountDiffs(a: seq<Byte>, b: seq<Byte>, n: nat): nat {
    if n == 0 then 0 else CountDiffs(a, b, n - 1) + if Differ(a, b, n - 1) then 1 else 0
  }

  /** Maximal runs in address order, all ending by `pos`. */
  ghost predicate InOrder(a: seq<Byte>, b: seq<Byte>, pos: int, runs: seq<Run>) {
    && (forall k :: 0 <= k < |runs| ==> Maximal(a, b, runs[k]) && runs[k].end <= pos)
    && (forall j, k :: 0 <= j < k < |runs| ==> runs[j].end < runs[k].start)
  }

  /** Every maximal run that starts below `pos` is listed, unless the list is full and
      holds earlier runs only. */
  ghost predicate Earliest(a: seq<Byte>, b: seq<Byte>, pos: int, max: nat, runs: seq<Run>) {
    forall r :: Maximal(a, b, r) && r.start < pos ==> r in runs || (|runs| == max && AllBefore(runs, r.start))
  }

  ghost predicate AllBefore(runs: seq<Run>, pos: int) { forall k :: 0 <= k < |runs| ==> runs[k].start < pos }

  /** What the scan has established when it stands at `pos`. */
  ghost predicate Scanned(a: seq<Byte>, b: seq<Byte>, base: int, excludes: seq<Exclusion>, max: nat, pos: int,
                          runs: seq<Run>) {
    && |runs| <= max && AllRuns(a, b, base, excludes, pos, runs)
    && (|runs| == max || NoneMissed(a, b, base, excludes, pos, runs))
    && (excludes == [] ==>
          !(Differ(a, b, pos - 1) && Differ(a, b, pos)) && InOrder(a, b, pos, runs) && Earliest(a, b, pos, max, runs))
  }

  /** Differing bytes up to one that does not differ, or to the end. */
  ghost predicate IsRun(a: seq<Byte>, b: seq<Byte>, s: int, e: int) {
    0 <= s < e <= Shared(a, b) && !Differ(a, b, e) && forall i :: s <= i < e ==> Differ(a, b, i)
  }

  /** Runs in address order, none overlapping, that start outside the exclusions and end by `pos`. */
  ghost predicate AllRuns(a: seq<Byte>, b: seq<Byte>, base: int, excludes: seq<Exclusion>, pos: int, runs: seq<Run>) {
    && (forall k :: 0 <= k < |runs| ==>
          IsRun(a, b, runs[k].start, runs[k].end) && !Excluded(base + runs[k].start, excludes) && runs[k].end <= pos)
    && forall j, k :: 0 <= j < k < |runs| ==> runs[j].end <= runs[k].start
  }

  ghost predicate Excluded(addr: int, excludes: seq<Exclusion>) {
    exists k :: 0 <= k < |excludes| && excludes[k].addr <= addr < excludes[k].addr + excludes[k].len
  }

  /** Every differing byte below `pos` outside the exclusions is inside a reported run. */
  ghost predicate NoneMissed(a: seq<Byte>, b: seq<Byte>, base: int, excludes: seq<Exclusion>, pos: int,
                             runs: seq<Run>) {
    forall i :: i < pos && Differ(a, b, i) && !Excluded(base + i, excludes) ==>
      exists k :: 0 <= k < |runs| && runs[k].start <= i < runs[k].end
  }

  /** The exclusion that covers an address, by its end. */
  method Covering(addr: int, excludes: seq<Exclusion>) returns (end: Option<int>)
    ensures end.Some? <==> Excluded(addr, excludes)
    ensures end.Some? ==> addr < end.value && forall x :: addr <= x < end.value ==> Excluded(x, excludes)
  {
    for k := 0 to |excludes|
      invariant forall j :: 0 <= j < k ==> !(excludes[j].addr <= addr < excludes[j].addr + excludes[j].len)
    {
      var ex := excludes[k];
      if ex.addr <= addr < ex.addr + ex.len { return Some(ex.addr + ex.len); }
    }
    end := None;
  }

  /** The end of the differing run at `s`. */
  method RunEnd(a: seq<Byte>, b: seq<Byte>, s: nat) returns (e: nat)
    requires Differ(a, b, s)
    ensures IsRun(a, b, s, e)
    ensures CountDiffs(a, b, e) == CountDiffs(a, b, s) + (e - s)
  {
    e := s + 1;
    while e < |a| && e < |b| && a[e] != b[e]
      invariant s < e <= Shared(a, b) && forall i :: s <= i < e ==> Differ(a, b, i)
      invariant CountDiffs(a, b, e) == CountDiffs(a, b, s) + (e - s)
    {
      e := e + 1;
    }
  }

  /** Without exclusions the totals are exact. */
  ghost predicate Counted(a: seq<Byte>, b: seq<Byte>, excludes: seq<Exclusion>, pos: int, diffs: int, compared: int) {
    excludes == [] ==> 0 <= pos <= Shared(a, b) && diffs == CountDiffs(a, b, pos) && compared == pos
  }

  /** One round: skip an exclusion, take a run, or pass a byte that agrees. */
  method Advance(a: seq<Byte>, b: seq<Byte>, base: int, excludes: seq<Exclusion>, max: nat, i: nat,
                 runs: seq<Run>, diffs: nat, compared: nat)
    returns (i': nat, runs': seq<Run>, diffs': nat, compared': nat)
    requires i < Shared(a, b) && Scanned(a, b, base, excludes, max, i, runs)
    requires Counted(a, b, excludes, i, diffs, compared)
    ensures i < i' && Scanned(a, b, base, excludes, max, i', runs') && Counted(a, b, excludes, i', diffs', compared')
  {
    runs', diffs', compared' := runs, diffs, compared;
    var skip := Covering(base + i, excludes);
    if skip.Some? {
      Skipped(a, b, base, excludes, max, i, skip.value - base, runs);
      i' := skip.value - base;
    } else if a[i] != b[i] {
      i' := RunEnd(a, b, i);
      RunFound(a, b, base, excludes, max, i, i', runs);
      diffs', compared' := diffs + (i' - i), compared + (i' - i);
      if |runs| < max { runs' := runs + [Run(i, i')]; }
    } else {
      NothingHere(a, b, base, excludes, max, i, runs);
      i', compared' := i + 1, compared + 1;
    }
  }

  /** Every reported run consists of differing bytes, starts outside the exclusions and goes
      on until the bytes agree again; below the limit no differing byte outside the
      exclusions is missed; with no exclusions the runs are exactly the first maximal ones
      and both totals are exact. */
  method FindDivergences(a: seq<Byte>, b: seq<Byte>, base: int, excludes: seq<Exclusion>, max: nat)
    returns (runs: seq<Run>, diffs: nat, compared: nat)
    ensures |runs| <= max && AllRuns(a, b, base, excludes, Shared(a, b), runs)
    ensures |runs| == max || NoneMissed(a, b, base, excludes, Shared(a, b), runs)
    ensures excludes == [] ==> InOrder(a, b, Shared(a, b), runs) && Earliest(a, b, Shared(a, b), max, runs)
    ensures excludes == [] ==> diffs == CountDiffs(a, b, Shared(a, b)) && compared == Shared(a, b)
  {
    runs, diffs, compared := [], 0, 0;
    var i := 0;
    while i < |a| && i < |b|
      invariant Scanned(a, b, base, excludes, max, i, runs) && Counted(a, b, excludes, i, diffs, compared)
      decreases Shared(a, b) - i
    {
      i, runs, diffs, compared := Advance(a, b, base, excludes, max, i, runs, diffs, compared);
    }
    AllScanned(a, b, base, excludes, max, i, runs);
  }

  /** What the scan has established once it is past the end. */
  lemma AllScanned(a: seq<Byte>, b: seq<Byte>, base: int, excludes: seq<Exclusion>, max: nat, pos: int, runs: seq<Run>)
    requires Scanned(a, b, base, excludes, max, pos, runs) && Shared(a, b) <= pos
    ensures |runs| <= max && AllRuns(a, b, base, excludes, Shared(a, b), runs)
    ensures |runs| == max || NoneMissed(a, b, base, excludes, Shared(a, b), runs)
    ensures excludes == [] ==> InOrder(a, b, Shared(a, b), runs) && Earliest(a, b, Shared(a, b), max, runs)
  {}

  lemma Skipped(a: seq<Byte>, b: seq<Byte>, base: int, excludes: seq<Exclusion>, max: nat, i: int, j: int,
                runs: seq<Run>)
    requires Scanned(a, b, base, excludes, max, i, runs) && i < j
    requires forall x :: base + i <= x < base + j ==> Excluded(x, excludes)
    ensures Scanned(a, b, base, excludes, max, j, runs)
  {
    assert Excluded(base + i, excludes);
  }

  lemma NothingHere(a: seq<Byte>, b: seq<Byte>, base: int, excludes: seq<Exclusion>, max: nat, i: int, runs: seq<Run>)
    requires Scanned(a, b, base, excludes, max, i, runs) && !Differ(a, b, i)
    ensures Scanned(a, b, base, excludes, max, i + 1, runs)
  {
    forall r | Maximal(a, b, r) && r.start < i + 1 ensures r.start < i { assert Differ(a, b, r.start); }
  }

  lemma RunFound(a: seq<Byte>, b: seq<Byte>, base: int, excludes: seq<Exclusion>, max: nat, s: nat, e: nat,
                 runs: seq<Run>)
    requires Scanned(a, b, base, excludes, max, s, runs) && IsRun(a, b, s, e) && !Excluded(base + s, excludes)
    ensures Scanned(a, b, base, excludes, max, e, if |runs| < max then runs + [Run(s, e)] else runs)
  {
    if |runs| < max { Appended(a, b, base, excludes, s, e, runs); }
    if excludes == [] { FirstFound(a, b, s, e, max, runs); }
  }

  lemma FirstFound(a: seq<Byte>, b: seq<Byte>, s: nat, e: nat, max: nat, runs: seq<Run>)
    requires !(Differ(a, b, s - 1) && Differ(a, b, s)) && InOrder(a, b, s, runs) && Earliest(a, b, s, max, runs)
    requires IsRun(a, b, s, e) && |runs| <= max
    ensures InOrder(a, b, e, if |runs| < max then runs + [Run(s, e)] else runs)
    ensures Earliest(a, b, e, max, if |runs| < max then runs + [Run(s, e)] else runs)
  {
    assert Differ(a, b, s);
    NextEarliest(a, b, s, e, max, runs);
    NextInOrder(a, b, s, e, runs);
  }

  lemma Appended(a: seq<Byte>, b: seq<Byte>, base: int, excludes: seq<Exclusion>, s: nat, e: nat, runs: seq<Run>)
    requires NoneMissed(a, b, base, excludes, s, runs) && AllRuns(a, b, base, excludes, s, runs)
    requires IsRun(a, b, s, e) && !Excluded(base + s, excludes)
    ensures NoneMissed(a, b, base, excludes, e, runs + [Run(s, e)])
    ensures AllRuns(a, b, base, excludes, e, runs + [Run(s, e)])
  {
    var out := runs + [Run(s, e)];
    assert out[|runs|] == Run(s, e) && forall k :: 0 <= k < |runs| ==> out[k] == runs[k];
  }

  lemma NextInOrder(a: seq<Byte>, b: seq<Byte>, s: nat, e: nat, runs: seq<Run>)
    requires InOrder(a, b, s, runs) && IsRun(a, b, s, e) && !Differ(a, b, s - 1)
    ensures InOrder(a, b, e, runs + [Run(s, e)])
  {
    assert Maximal(a, b, Run(s, e));
    forall k | 0 <= k < |runs| ensures runs[k].end < s { assert Differ(a, b, runs[k].end - 1); }
  }

  lemma NextEarliest(a: seq<Byte>, b: seq<Byte>, s: nat, e: nat, max: nat, runs: seq<Run>)
    requires InOrder(a, b, s, runs) && Earliest(a, b, s, max, runs) && IsRun(a, b, s, e) && !Differ(a, b, s - 1)
    requires |runs| <= max
    ensures Earliest(a, b, e, max, if |runs| < max then runs + [Run(s, e)] else runs)
  {
    var out := if |runs| < max then runs + [Run(s, e)] else runs;
    forall r | Maximal(a, b, r) && r.start < e ensures r in out || (|out| == max && AllBefore(out, r.start)) {
      if s <= r.start { OnlyRun(a, b, s, e, r); }
    }
  }

  lemma OnlyRun(a: seq<Byte>, b: seq<Byte>, s: nat, e: nat, r: Run)
    requires !Differ(a, b, s - 1) && IsRun(a, b, s, e) && Maximal(a, b, r) && s <= r.start < e
    ensures r == Run(s, e)
  {
    assert s < r.start ==> Differ(a, b, r.start - 1);
    assert r.end < e ==> Differ(a, b, r.end);
    assert e < r.end ==> Differ(a, b, e);
  }

  // ---- runs and exclusions ----

  /** A reported byte that lies in an exclusion. */
  ghost predicate Reported(base: int, excludes: seq<Exclusion>, runs: seq<Run>, k: int, i: int) {
    0 <= k < |runs| && runs[k].start <= i < runs[k].end && Excluded(base + i, excludes)
  }

  /** The bytes go on differing from `i`, outside the exclusions, to the next one inside. */
  ghost predicate Enters(a: seq<Byte>, b: seq<Byte>, base: int, excludes: seq<Exclusion>, i: int) {
    Differ(a, b, i) && Differ(a, b, i + 1) && !Excluded(base + i, excludes) && Excluded(base + i + 1, excludes)
  }

  /** A run that reaches an excluded byte has entered the exclusion on the way. */
  lemma {:induction false} EntersOnTheWay(a: seq<Byte>, b: seq<Byte>, base: int, excludes: seq<Exclusion>, s: int,
                                          i: int)
    returns (e: int)
    requires s <= i && (forall j :: s <= j <= i ==> Differ(a, b, j))
    requires !Excluded(base + s, excludes) && Excluded(base + i, excludes)
    ensures Enters(a, b, base, excludes, e)
    decreases i - s
  {
    assert s < i;
    if Excluded(base + s + 1, excludes) {
      e := s;
    } else {
      e := EntersOnTheWay(a, b, base, excludes, s + 1, i);
    }
  }

  /** Below the limit, no reported byte is excluded if and only if the differing bytes never
      lead into an exclusion. */
  lemma ReportsExcludedIff(a: seq<Byte>, b: seq<Byte>, base: int, excludes: seq<Exclusion>, runs: seq<Run>)
    requires AllRuns(a, b, base, excludes, Shared(a, b), runs) && NoneMissed(a, b, base, excludes, Shared(a, b), runs)
    ensures (exists k, i :: Reported(base, excludes, runs, k, i)) <==> exists i :: Enters(a, b, base, excludes, i)
  {
    if k, i :| Reported(base, excludes, runs, k, i) {
      var e := EntersOnTheWay(a, b, base, excludes, runs[k].start, i);
    }
    if i :| Enters(a, b, base, excludes, i) {
      var k :| 0 <= k < |runs| && runs[k].start <= i < runs[k].end;
      assert i + 1 != runs[k].end;
      assert base + (i + 1) == base + i + 1;
      assert Reported(base, excludes, runs, k, i + 1);
    }
  }

  /** Two differing bytes, of which the second is excluded, are reported together. */
  lemma RunEntersExclusion(runs: seq<Run>)
    requires AllRuns([1, 1], [0, 0], 0, [Exclusion(1, 1)], 2, runs)
    requires NoneMissed([1, 1], [0, 0], 0, [Exclusion(1, 1)], 2, runs)
    ensures exists k :: Reported(0, [Exclusion(1, 1)], runs, k, 1)
  {
    var ex := [Exclusion(1, 1)];
    assert ex[0] == Exclusion(1, 1);
    assert Differ([1, 1], [0, 0], 0) && Differ([1, 1], [0, 0], 1) && !Excluded(0, ex) && Excluded(1, ex);
    assert Excluded(0 + 1, ex) && !Excluded(0 + 0, ex);
    var k :| 0 <= k < |runs| && runs[k].start <= 0 < runs[k].end;
    assert runs[k].end != 1;
    assert Reported(0, ex, runs, k, 1);
  }
}
