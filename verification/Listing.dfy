/** Reading the listing of functions and code ranges, and what happens when a written
    manifest is read as one. */
module Listing {
  import opened Mips
  import opened Identity
  import opened Manifest

  /** The functions read so far, and whether range lines belong to the last one. */
  datatype Reading = Reading(funcs: seq<Func>, open: bool)

  function AddRange(funcs: seq<Func>, r: Range): seq<Func>
    requires funcs != []
  {
    var n := |funcs| - 1;
    funcs[..n] + [Func(funcs[n].entry, funcs[n].ranges + [r])]
  }

  /** One line: a function of the overlay opens, any other one closes, and a range goes to
      the open function; lines that do not parse are dropped. */
  function ReadLine(c: Capture, r: Reading, line: string): Reading {
    var f := Fields(line);
    if f == [] then r
    else if f[0] == "F" then
      if |f| < 2 || ParseHex(f[1]).None? || !c.InOverlay(ParseHex(f[1]).value) then r.(open := false)
      else Reading(r.funcs + [Func(ParseHex(f[1]).value, [])], true)
    else if f[0] == "R" && r.open && r.funcs != [] && |f| >= 3 && ParseHex(f[1]).Some? && ParseHex(f[2]).Some? then
      r.(funcs := AddRange(r.funcs, Range(ParseHex(f[1]).value, ParseHex(f[2]).value)))
    else r
  }

  function ReadLines(c: Capture, r: Reading, lines: seq<string>): Reading
    decreases |lines|
  {
    if lines == [] then r else ReadLines(c, ReadLine(c, r, lines[0]), lines[1..])
  }

  const NOTHING := Reading([], false)

  method ParseListing(c: Capture, text: string) returns (funcs: seq<Func>)
    ensures funcs == ReadLines(c, NOTHING, Lines(text)).funcs
  {
    var lines, r := Lines(text), NOTHING;
    assert lines[0..] == lines;
    for i := 0 to |lines|
      invariant ReadLines(c, r, lines[i..]) == ReadLines(c, NOTHING, lines)
    {
      assert lines[i..][0] == lines[i] && lines[i..][1..] == lines[i + 1..];
      r := ReadLine(c, r, lines[i]);
    }
    funcs := r.funcs;
  }

  /** `parse_overlay_func_ids`: the listing read, and its functions identified. */
  method ListedIds(c: Capture, text: string) returns (ids: seq<FuncId>)
    ensures ids == Ids(c, ReadLines(c, NOTHING, Lines(text)).funcs)
  {
    var funcs := ParseListing(c, text);
    ids := FuncIds(c, funcs);
  }

  // ---- reading back what the writer printed ----

  function Lifted(ranges: seq<Range>): seq<Range> {
    if ranges == [] then [] else [Range(Virtual(ranges[0].lo), ranges[0].len)] + Lifted(ranges[1..])
  }

  /** The functions that a written manifest lists for the overlay. */
  function Reread(c: Capture, ids: seq<FuncId>): seq<Func> {
    if ids == [] then []
    else (if c.InOverlay(ids[0].entry) then [Func(ids[0].entry, Lifted(ids[0].ranges))] else []) + Reread(c, ids[1..])
  }

  lemma RangeLineReads(c: Capture, r: Reading, g: Range)
    ensures ReadLine(c, r, RangeLine(g))
         == if r.open && r.funcs != [] then r.(funcs := AddRange(r.funcs, Range(Virtual(g.lo), g.len))) else r
  {
    HexRoundTrip(Virtual(g.lo), 8);
    HexRoundTrip(g.len, 1);
    FieldsThree("R", Hex(Virtual(g.lo), 8), Hex(g.len, 1));
  }

  lemma FuncLineReads(c: Capture, r: Reading, f: FuncId)
    ensures ReadLine(c, r, FuncLine(f))
         == if c.InOverlay(f.entry) then Reading(r.funcs + [Func(f.entry, [])], true) else r.(open := false)
  {
    FuncLineFields(f);
    HexRoundTrip(f.entry, 8);
  }

  lemma ReadFirst(c: Capture, r: Reading, line: string, rest: string)
    requires OneLine(line)
    ensures ReadLines(c, r, Lines(line + "\n" + rest)) == ReadLines(c, ReadLine(c, r, line), Lines(rest))
  {
    FirstLine(line, rest);
    assert ([line] + Lines(rest))[1..] == Lines(rest);
  }

  /** The range lines of an open function are added to it, one by one. */
  lemma {:induction false} RangesRead(c: Capture, done: seq<Func>, e: int, got: seq<Range>, ranges: seq<Range>,
                                      rest: string)
    ensures ReadLines(c, Reading(done + [Func(e, got)], true), Lines(RangeText(ranges) + rest))
         == ReadLines(c, Reading(done + [Func(e, got + Lifted(ranges))], true), Lines(rest))
    decreases |ranges|
  {
    if ranges == [] {
      assert RangeText(ranges) + rest == rest && got + Lifted(ranges) == got;
    } else {
      var line, more := RangeLine(ranges[0]), RangeText(ranges[1..]) + rest;
      var next := got + [Range(Virtual(ranges[0].lo), ranges[0].len)];
      assert RangeText(ranges) + rest == line + "\n" + more;
      RangeLineFields(ranges[0]);
      ReadFirst(c, Reading(done + [Func(e, got)], true), line, more);
      RangeLineReads(c, Reading(done + [Func(e, got)], true), ranges[0]);
      AddToLast(done, e, got, Range(Virtual(ranges[0].lo), ranges[0].len));
      RangesRead(c, done, e, next, ranges[1..], rest);
      assert next + Lifted(ranges[1..]) == got + Lifted(ranges);
    }
  }

  lemma AddToLast(done: seq<Func>, e: int, got: seq<Range>, g: Range)
    ensures AddRange(done + [Func(e, got)], g) == done + [Func(e, got + [g])]
  {
    assert (done + [Func(e, got)])[..|done|] == done;
  }

  /** Outside an open function range lines are dropped. */
  lemma {:induction false} RangesDropped(c: Capture, funcs: seq<Func>, ranges: seq<Range>, rest: string)
    ensures ReadLines(c, Reading(funcs, false), Lines(RangeText(ranges) + rest))
         == ReadLines(c, Reading(funcs, false), Lines(rest))
    decreases |ranges|
  {
    if ranges == [] {
      assert RangeText(ranges) + rest == rest;
    } else {
      var line, more := RangeLine(ranges[0]), RangeText(ranges[1..]) + rest;
      assert RangeText(ranges) + rest == line + "\n" + more;
      RangeLineFields(ranges[0]);
      ReadFirst(c, Reading(funcs, false), line, more);
      RangeLineReads(c, Reading(funcs, false), ranges[0]);
      RangesDropped(c, funcs, ranges[1..], rest);
    }
  }

  /** What the lines of one written function add. */
  function Opened(c: Capture, r: Reading, f: FuncId): Reading {
    if c.InOverlay(f.entry) then Reading(r.funcs + [Func(f.entry, Lifted(f.ranges))], true) else r.(open := false)
  }

  lemma FuncRead(c: Capture, r: Reading, f: FuncId, rest: string)
    ensures ReadLines(c, r, Lines(FuncLine(f) + "\n" + (RangeText(f.ranges) + rest)))
         == ReadLines(c, Opened(c, r, f), Lines(rest))
  {
    FuncLineFields(f);
    ReadFirst(c, r, FuncLine(f), RangeText(f.ranges) + rest);
    FuncLineReads(c, r, f);
    if c.InOverlay(f.entry) {
      RangesRead(c, r.funcs, f.entry, [], f.ranges, rest);
      assert [] + Lifted(f.ranges) == Lifted(f.ranges);
    } else {
      RangesDropped(c, r.funcs, f.ranges, rest);
    }
  }

  lemma {:induction false} FuncsRead(c: Capture, r: Reading, ids: seq<FuncId>)
    ensures ReadLines(c, r, Lines(FuncText(ids))).funcs == r.funcs + Reread(c, ids)
    decreases |ids|
  {
    if ids == [] {
      assert r.funcs + [] == r.funcs;
    } else {
      FuncRead(c, r, ids[0], FuncText(ids[1..]));
      FuncsRead(c, Opened(c, r, ids[0]), ids[1..]);
      RereadCons(c, r, ids);
    }
  }

  lemma RereadCons(c: Capture, r: Reading, ids: seq<FuncId>)
    requires ids != []
    ensures Opened(c, r, ids[0]).funcs + Reread(c, ids[1..]) == r.funcs + Reread(c, ids)
  {
    var more := Reread(c, ids[1..]);
    if c.InOverlay(ids[0].entry) {
      var f := [Func(ids[0].entry, Lifted(ids[0].ranges))];
      assert (r.funcs + f) + more == r.funcs + (f + more);
    } else {
      assert [] + more == more;
    }
  }

  lemma HeaderReads(c: Capture, r: Reading)
    ensures OneLine(HEADER) && ReadLine(c, r, HEADER) == r
  {
    HeaderIsOneLine();
    assert HEADER[0] == '#' && WordLength(HEADER) >= 1;
    assert Fields(HEADER)[0][0] == '#';
  }

  /** Reading a written manifest as a listing returns its functions of the overlay, with
      all their ranges, in order. */
  lemma ManifestRereads(c: Capture, ids: seq<FuncId>)
    ensures ReadLines(c, NOTHING, Lines(ManifestText(ids))).funcs == Reread(c, ids)
  {
    HeaderReads(c, NOTHING);
    ReadFirst(c, NOTHING, HEADER, FuncText(ids));
    FuncsRead(c, NOTHING, ids);
  }

  // ---- identities survive ----

  lemma PhysOfVirtual(a: int)
    ensures Phys(Virtual(a)) == Phys(a) && Virtual(Virtual(a)) == Virtual(a)
  {}

  lemma {:induction false} LiftedAt(ranges: seq<Range>, i: nat)
    requires i < |ranges|
    ensures |Lifted(ranges)| == |ranges| && Lifted(ranges)[i] == Range(Virtual(ranges[i].lo), ranges[i].len)
    decreases |ranges|
  {
    if |ranges| > 1 { LiftedAt(ranges[1..], if i > 0 then i - 1 else 0); }
  }

  /** Lifting a range to its virtual address does not move its bytes. */
  lemma LiftedHeld(c: Capture, ranges: seq<Range>)
    requires AllHeld(c, ranges)
    ensures |Lifted(ranges)| == |ranges| && AllHeld(c, Lifted(ranges))
    ensures forall i :: 0 <= i < |ranges| ==> c.Bytes(Lifted(ranges)[i]) == c.Bytes(ranges[i])
  {
    forall i | 0 <= i < |ranges|
      ensures |Lifted(ranges)| == |ranges| && c.Holds(Lifted(ranges)[i])
      ensures c.Bytes(Lifted(ranges)[i]) == c.Bytes(ranges[i])
    {
      LiftedAt(ranges, i);
      PhysOfVirtual(ranges[i].lo);
    }
  }

  lemma {:induction false} SameBytesSameCode(c: Capture, a: seq<Range>, b: seq<Range>)
    requires AllHeld(c, a) && AllHeld(c, b) && |a| == |b|
    requires forall i :: 0 <= i < |a| ==> c.Bytes(a[i]) == c.Bytes(b[i])
    ensures Code(c, a) == Code(c, b)
    decreases |a|
  {
    if a != [] {
      var n := |a| - 1;
      assert forall i :: 0 <= i < n ==> a[..n][i] == a[i] && b[..n][i] == b[i];
      SameBytesSameCode(c, a[..n], b[..n]);
    }
  }

  /** `id` is what capture `c` gives some function of its overlay. */
  ghost predicate Given(c: Capture, id: FuncId) {
    && id.ranges != [] && AllHeld(c, id.ranges) && c.InOverlay(id.entry) && Virtual(id.entry) == id.entry
    && id.crc == Crc32(Code(c, id.ranges), 0) % 0x1_0000_0000
  }

  lemma {:induction false} IdsAreGiven(c: Capture, funcs: seq<Func>)
    ensures forall i :: 0 <= i < |Ids(c, funcs)| ==> Given(c, Ids(c, funcs)[i])
    decreases |funcs|
  {
    if funcs != [] {
      var n := |funcs| - 1;
      IdsAreGiven(c, funcs[..n]);
      PhysOfVirtual(funcs[n].entry);
    }
  }

  lemma GivenAgain(c: Capture, id: FuncId)
    requires Given(c, id)
    ensures var f := Func(id.entry, Lifted(id.ranges));
            Identified(c, f) && IdOf(c, f).entry == id.entry && IdOf(c, f).crc == id.crc
  {
    LiftedHeld(c, id.ranges);
    SameBytesSameCode(c, Lifted(id.ranges), id.ranges);
  }

  /** Two lists of functions with the same identities, one by one. */
  ghost predicate SameIds(a: seq<FuncId>, b: seq<FuncId>) {
    |a| == |b| && forall i :: 0 <= i < |a| ==> a[i].entry == b[i].entry && a[i].crc == b[i].crc
  }

  lemma {:induction false} GivenReread(c: Capture, ids: seq<FuncId>)
    requires forall i :: 0 <= i < |ids| ==> Given(c, ids[i])
    ensures SameIds(Ids(c, Reread(c, ids)), ids)
    decreases |ids|
  {
    if ids != [] {
      var f := Func(ids[0].entry, Lifted(ids[0].ranges));
      GivenAgain(c, ids[0]);
      GivenReread(c, ids[1..]);
      IdsCons(c, f, Reread(c, ids[1..]));
    }
  }

  lemma {:induction false} IdsCons(c: Capture, f: Func, funcs: seq<Func>)
    requires Identified(c, f)
    ensures Ids(c, [f] + funcs) == [IdOf(c, f)] + Ids(c, funcs)
    decreases |funcs|
  {
    var all, n := [f] + funcs, |funcs|;
    if funcs == [] {
      assert all == [f] && all[..0] == [];
      assert Ids(c, []) == [];
    } else {
      assert all[..n] == [f] + funcs[..n - 1] && all[n] == funcs[n - 1];
      IdsCons(c, f, funcs[..n - 1]);
    }
  }

  /** A manifest written for the identities of a capture, read again as a listing of the same
      capture, gives exactly these identities, in order. */
  lemma ManifestKeepsIds(c: Capture, funcs: seq<Func>)
    ensures SameIds(Ids(c, ReadLines(c, NOTHING, Lines(ManifestText(Ids(c, funcs)))).funcs), Ids(c, funcs))
  {
    IdsAreGiven(c, funcs);
    ManifestRereads(c, Ids(c, funcs));
    GivenReread(c, Ids(c, funcs));
  }
}
