/** Function identity: the CRC-32 of the bytes of a function's code ranges, computed
    by chaining the CRC from range to range. */
module Identity {
  import opened Mips

  // ---- CRC-32 (section 8 of RFC 1952) ----

  function Xor(a: nat, b: nat): nat {
    if a == 0 && b == 0 then 0 else (a % 2 + b % 2) % 2 + 2 * Xor(a / 2, b / 2)
  }

  lemma XorBit(a: nat, b: nat)
    ensures Xor(a, b) == (a % 2 + b % 2) % 2 + 2 * Xor(a / 2, b / 2)
  {}

  lemma Halves(x: nat, q: nat, r: nat)
    requires r < 2 && x == r + 2 * q
    ensures x / 2 == q && x % 2 == r
  {}

  lemma {:induction false} XorCancels(a: nat, b: nat)
    ensures Xor(Xor(a, b), b) == a
    decreases a + b
  {
    if a != 0 || b != 0 {
      var x, q, r := Xor(a, b), Xor(a / 2, b / 2), (a % 2 + b % 2) % 2;
      XorBit(a, b);
      Halves(x, q, r);
      XorBit(x, b);
      assert Xor(q, b / 2) == a / 2 by { XorCancels(a / 2, b / 2); }
      Parity(a, b);
    }
  }

  lemma Parity(a: nat, b: nat)
    ensures ((a % 2 + b % 2) % 2 + b % 2) % 2 == a % 2
  {}

  const BITS: nat := 8
  const MASK: nat := 0xFFFF_FFFF

  /** Shifts one bit out of the register, reducing by the reversed polynomial. */
  function Shift(c: nat): nat { if c % 2 == 1 then Xor(c / 2, 0xEDB8_8320) else c / 2 }

  function ShiftOut(c: nat, bits: nat): nat
    decreases bits, c
  {
    if bits == 0 then c else ShiftOut(Shift(c), bits - 1)
  }

  function FeedByte(c: nat, b: Byte): nat { ShiftOut(Xor(c, b), BITS) }

  function Update(c: nat, data: seq<Byte>): nat
    decreases |data|
  {
    if data == [] then c else Update(FeedByte(c, data[0]), data[1..])
  }

  /** `binascii.crc32(data, crc)`. */
  function Crc32(data: seq<Byte>, crc: nat): nat { Xor(Update(Xor(crc, MASK), data), MASK) }

  lemma {:induction false} UpdateConcat(c: nat, a: seq<Byte>, b: seq<Byte>)
    ensures Update(c, a + b) == Update(Update(c, a), b)
    decreases |a|
  {
    if a == [] {
      assert a + b == b;
    } else {
      assert (a + b)[0] == a[0] && (a + b)[1..] == a[1..] + b;
      UpdateConcat(FeedByte(c, a[0]), a[1..], b);
    }
  }

  /** Chaining the CRC over two pieces gives the CRC of their concatenation. */
  lemma CrcChains(a: seq<Byte>, b: seq<Byte>, c: nat)
    ensures Crc32(b, Crc32(a, c)) == Crc32(a + b, c)
  {
    UpdateConcat(Xor(c, MASK), a, b);
    XorCancels(Update(Xor(c, MASK), a), MASK);
  }

  lemma CrcEmpty(c: nat)
    ensures Crc32([], c) == c
  {
    XorCancels(c, MASK);
  }

  // ---- check values, and what the CRC detects ----

  lemma {:induction false} XorZero(a: nat)
    ensures Xor(a, 0) == a && Xor(0, a) == a
  {
    if a != 0 { XorZero(a / 2); }
  }

  lemma {:induction false} XorCommutes(a: nat, b: nat)
    ensures Xor(a, b) == Xor(b, a)
    decreases a + b
  {
    if a != 0 || b != 0 { XorCommutes(a / 2, b / 2); }
  }

  lemma XorOdd(q: nat, r: nat)
    ensures Xor(2 * q + 1, 2 * r + 1) == 2 * Xor(q, r)
  {
    Halves(2 * q + 1, q, 1);
    Halves(2 * r + 1, r, 1);
    XorBit(2 * q + 1, 2 * r + 1);
  }

  lemma {:induction false} ShiftZeros(h: nat, n: nat)
    ensures ShiftOut(h * Pow2(n), n) == h
  {
    if n > 0 {
      assert h * Pow2(n) == 2 * (h * Pow2(n - 1));
      ShiftZeros(h, n - 1);
    }
  }

  lemma XorFour(q: nat, r: nat)
    ensures Xor(16 * q + 15, 16 * r + 15) == 16 * Xor(q, r)
  {
    XorOdd(8 * q + 7, 8 * r + 7);
    XorOdd(4 * q + 3, 4 * r + 3);
    XorOdd(2 * q + 1, 2 * r + 1);
    XorOdd(q, r);
  }

  lemma XorByte(h: nat, z: nat)
    requires z == 0
    ensures Xor(256 * h + 255, 256 * z + 255) == 256 * h
  {
    XorFour(16 * h + 15, 16 * z + 15);
    XorFour(h, z);
    XorZero(h);
  }

  lemma ShiftByte(h: nat, n: nat)
    requires n == BITS
    ensures ShiftOut(256 * h, n) == h
  {
    EightMore(0);
    ShiftZeros(h, n);
  }

  lemma FeedOnes(h: nat, b: Byte, n: nat)
    requires b == 255 && n == BITS
    ensures FeedByte(256 * h + 255, b) == h
  {
    XorByte(h, 0);
    ShiftByte(h, n);
  }

  lemma OnesFirst(h: nat, data: seq<Byte>)
    requires data != [] && data[0] == 255
    ensures Update(256 * h + 255, data) == Update(h, data[1..])
  {
    FeedOnes(h, data[0], BITS);
  }

  /** `n` bytes 0xFF as a number. */
  function Ones(n: nat): nat { if n == 0 then 0 else 256 * Ones(n - 1) + 255 }

  lemma {:induction false} OnesClear(n: nat, data: seq<Byte>)
    requires n == |data| && forall i :: 0 <= i < n ==> data[i] == 255
    ensures Update(Ones(n), data) == 0
    decreases n
  {
    if n > 0 {
      var h, rest := Ones(n - 1), data[1..];
      assert Update(h, rest) == 0 by { OnesClear(n - 1, rest); }
      assert Update(256 * h + 255, data) == Update(h, rest) by { OnesFirst(h, data); }
    }
  }

  /** Check value: the CRC-32 of four bytes 0xFF is 0xFFFFFFFF. */
  lemma CheckOnes(data: seq<Byte>)
    requires |data| == 4 && forall i :: 0 <= i < |data| ==> data[i] == 255
    ensures Crc32(data, 0) == 0xFFFF_FFFF
  {
    XorZero(MASK);
    OnesClear(4, data);
    assert Ones(4) == MASK;
  }

  /** The generator polynomial, the term of degree `e` as bit `31 - e`: degrees 0, 1, 2, 4, 5,
      7, 8, 10, 11, 12, 16, 22, 23 and 26. */
  const GENERATOR: nat :=
    0x8000_0000 + 0x4000_0000 + 0x2000_0000 + 0x800_0000 + 0x400_0000 + 0x100_0000 + 0x80_0000 + 0x20_0000
    + 0x10_0000 + 0x8_0000 + 0x8000 + 0x200 + 0x100 + 0x20

  /** The last bit of a byte to leave the register is reduced by the generator. */
  lemma CheckGenerator()
    ensures Update(0x80, [0]) == GENERATOR
  {
    XorZero(0x80);
    ShiftZeros(1, 7);
    assert Pow2(7) == 0x80;
    XorZero(GENERATOR);
    assert [0][1..] == [];
    assert ShiftOut(1, 1) == GENERATOR;
    ShiftMore(0x80, 7, 1);
  }

  lemma {:induction false} ShiftMore(c: nat, m: nat, n: nat)
    ensures ShiftOut(c, m + n) == ShiftOut(ShiftOut(c, m), n)
    decreases m
  {
    if m > 0 { ShiftMore(Shift(c), m - 1, n); }
  }

  /** A number with top bit `n` keeps it against one without. */
  lemma {:induction false} XorTop(a: nat, b: nat, n: nat)
    requires a < Pow2(n) <= b < Pow2(n + 1)
    ensures Pow2(n) <= Xor(a, b) < Pow2(n + 1)
  {
    if n > 0 { XorTop(a / 2, b / 2, n - 1); } else { XorZero(1); }
  }

  lemma {:induction false} XorBound(a: nat, b: nat, n: nat)
    requires a < Pow2(n) && b < Pow2(n)
    ensures Xor(a, b) < Pow2(n)
  {
    if n > 0 { XorBound(a / 2, b / 2, n - 1); }
  }

  lemma Sizes()
    ensures Pow2(31) == 0x8000_0000 && Pow2(32) == 0x1_0000_0000
  {
    EightMore(0);
    EightMore(8);
    EightMore(16);
    EightMore(23);
    EightMore(15);
    EightMore(7);
  }

  lemma EightMore(n: nat)
    ensures Pow2(n + 8) == 0x100 * Pow2(n)
  {
    assert Pow2(n + 2) == 4 * Pow2(n) && Pow2(n + 4) == 4 * Pow2(n + 2);
    assert Pow2(n + 6) == 4 * Pow2(n + 4) && Pow2(n + 8) == 4 * Pow2(n + 6);
  }

  lemma ShiftFits(c: nat)
    requires c <= MASK
    ensures Shift(c) <= MASK && (c % 2 == 1 <==> Shift(c) >= 0x8000_0000)
  {
    Sizes();
    if c % 2 == 1 { XorTop(c / 2, 0xEDB8_8320, 31); }
  }

  lemma {:induction false} ShiftOutInjective(c: nat, d: nat, bits: nat)
    requires c <= MASK && d <= MASK && ShiftOut(c, bits) == ShiftOut(d, bits)
    ensures c == d
    decreases bits
  {
    if bits > 0 {
      ShiftFits(c);
      ShiftFits(d);
      ShiftOutInjective(Shift(c), Shift(d), bits - 1);
      XorCancels(c / 2, 0xEDB8_8320);
      XorCancels(d / 2, 0xEDB8_8320);
    }
  }

  lemma {:induction false} ShiftOutFits(c: nat, bits: nat)
    requires c <= MASK
    ensures ShiftOut(c, bits) <= MASK
    decreases bits
  {
    if bits > 0 {
      ShiftFits(c);
      ShiftOutFits(Shift(c), bits - 1);
    }
  }

  lemma FeedFits(c: nat, b: Byte)
    requires c <= MASK
    ensures Xor(c, b) <= MASK && FeedByte(c, b) <= MASK
  {
    Sizes();
    XorBound(c, b, 32);
    ShiftOutFits(Xor(c, b), BITS);
  }

  lemma {:induction false} UpdateInjective(c: nat, d: nat, data: seq<Byte>)
    requires c <= MASK && d <= MASK && Update(c, data) == Update(d, data)
    ensures c == d
    decreases |data|
  {
    if data != [] {
      var b := data[0];
      FeedFits(c, b);
      FeedFits(d, b);
      UpdateInjective(FeedByte(c, b), FeedByte(d, b), data[1..]);
      ShiftOutInjective(Xor(c, b), Xor(d, b), BITS);
      XorCancels(c, b);
      XorCancels(d, b);
    }
  }

  lemma {:induction false} UpdateFits(c: nat, data: seq<Byte>)
    requires c <= MASK
    ensures Update(c, data) <= MASK
    decreases |data|
  {
    if data != [] {
      FeedFits(c, data[0]);
      UpdateFits(FeedByte(c, data[0]), data[1..]);
    }
  }

  /** Changing one byte anywhere always changes the CRC. */
  lemma OneByteChanges(a: seq<Byte>, x: Byte, y: Byte, b: seq<Byte>, crc: nat)
    requires crc <= MASK && Crc32(a + [x] + b, crc) == Crc32(a + [y] + b, crc)
    ensures x == y
  {
    var c := Xor(crc, MASK);
    Sizes();
    XorBound(crc, MASK, 32);
    UpdateFits(c, a);
    var m := Update(c, a);
    ByteIn(c, a, x, b);
    ByteIn(c, a, y, b);
    XorCancels(Update(FeedByte(m, x), b), MASK);
    XorCancels(Update(FeedByte(m, y), b), MASK);
    FeedFits(m, x);
    FeedFits(m, y);
    UpdateInjective(FeedByte(m, x), FeedByte(m, y), b);
    ShiftOutInjective(Xor(m, x), Xor(m, y), BITS);
    XorCommutes(m, x);
    XorCommutes(m, y);
    XorCancels(x, m);
    XorCancels(y, m);
  }

  lemma ByteIn(c: nat, a: seq<Byte>, x: Byte, b: seq<Byte>)
    ensures Update(c, a + [x] + b) == Update(FeedByte(Update(c, a), x), b)
  {
    UpdateConcat(c, a + [x], b);
    UpdateConcat(c, a, [x]);
    assert [x][1..] == [];
  }

  // ---- identities of the functions of an overlay ----

  datatype Range = Range(lo: int, len: nat)
  datatype Func = Func(entry: int, ranges: seq<Range>)
  datatype FuncId = FuncId(entry: Word, crc: Word, ranges: seq<Range>)

  /** What tells a function from any other: its entry and the CRC of its code bytes. */
  datatype Id = Id(entry: int, crc: int)

  /** The captured bytes, and where they were loaded. */
  datatype Capture = Capture(data: seq<Byte>, load: nat, size: nat) {
    predicate InOverlay(a: int) { Phys(load) <= Phys(a) < Phys(load) + size }

    function Offset(r: Range): int { Phys(r.lo) - Phys(load) }

    predicate Holds(r: Range) { 0 <= Offset(r) && Offset(r) + r.len <= |data| }

    function Bytes(r: Range): seq<Byte>
      requires Holds(r)
    {
      data[Offset(r)..Offset(r) + r.len]
    }
  }

  ghost predicate AllHeld(c: Capture, ranges: seq<Range>) { forall i :: 0 <= i < |ranges| ==> c.Holds(ranges[i]) }

  /** All the code of a function, range after range. */
  ghost function Code(c: Capture, ranges: seq<Range>): seq<Byte>
    requires AllHeld(c, ranges)
    decreases |ranges|
  {
    if ranges == [] then []
    else
      var n := |ranges| - 1;
      assert forall i :: 0 <= i < n ==> ranges[..n][i] == ranges[i];
      Code(c, ranges[..n]) + c.Bytes(ranges[n])
  }

  /** The chained hash of a function's ranges: the CRC of all its code, or nothing if a
      range is outside the captured bytes. */
  method HashRanges(c: Capture, ranges: seq<Range>) returns (crc: Option<nat>)
    ensures crc.Some? <==> AllHeld(c, ranges)
    ensures crc.Some? ==> crc.value == Crc32(Code(c, ranges), 0)
  {
    var h: nat := 0;
    assert ranges[..0] == [] && Code(c, []) == [];
    CrcEmpty(0);
    for i := 0 to |ranges|
      invariant AllHeld(c, ranges[..i])
      invariant h == Crc32(Code(c, ranges[..i]), 0)
    {
      if !c.Holds(ranges[i]) { return None; }
      assert ranges[..i + 1] == ranges[..i] + [ranges[i]] && ranges[..i + 1][..i] == ranges[..i];
      CrcChains(Code(c, ranges[..i]), c.Bytes(ranges[i]), 0);
      h := Crc32(c.Bytes(ranges[i]), h);
    }
    assert ranges[..|ranges|] == ranges;
    crc := Some(h);
  }

  ghost predicate Identified(c: Capture, f: Func) { c.InOverlay(f.entry) && f.ranges != [] && AllHeld(c, f.ranges) }

  function Virtual(a: int): Word { Phys(a) + 0x8000_0000 }

  ghost function IdOf(c: Capture, f: Func): FuncId
    requires AllHeld(c, f.ranges)
  {
    FuncId(Virtual(f.entry), Crc32(Code(c, f.ranges), 0) % 0x1_0000_0000, f.ranges)
  }

  /** The identities that a list of functions yields, in order. */
  ghost function Ids(c: Capture, funcs: seq<Func>): seq<FuncId>
    decreases |funcs|
  {
    if funcs == [] then []
    else
      var n := |funcs| - 1;
      Ids(c, funcs[..n]) + if Identified(c, funcs[n]) then [IdOf(c, funcs[n])] else []
  }

  /** The entry lies in the overlay and all ranges, not none, are among the captured bytes;
      the identity is the entry in KSEG0 and the CRC-32 of the code. */
  ghost predicate Yields(c: Capture, f: Func, id: FuncId) {
    && Phys(c.load) <= Phys(f.entry) < Phys(c.load) + c.size && |f.ranges| > 0
    && (forall i :: 0 <= i < |f.ranges| ==>
          Phys(c.load) <= Phys(f.ranges[i].lo) && Phys(f.ranges[i].lo) + f.ranges[i].len <= Phys(c.load) + |c.data|)
    && id.entry == Phys(f.entry) + 0x8000_0000 && id.ranges == f.ranges
    && id.crc == Crc32(Code(c, f.ranges), 0) % 0x1_0000_0000
  }

  /** The code bytes of a range are those captured at its physical address. */
  lemma RangeBytes(c: Capture, r: Range, i: nat)
    requires c.Holds(r) && i < r.len
    ensures |c.Bytes(r)| == r.len && c.Bytes(r)[i] == c.data[Phys(r.lo) + i - Phys(c.load)]
  {}

  lemma YieldsOne(c: Capture, f: Func, id: FuncId)
    ensures Yields(c, f, id) <==> Identified(c, f) && id == IdOf(c, f)
  {}

  /** The identities of a list of functions are exactly those that its functions yield. */
  lemma {:induction false} IdsIff(c: Capture, funcs: seq<Func>, id: FuncId)
    ensures id in Ids(c, funcs) <==> exists f :: f in funcs && Yields(c, f, id)
    decreases |funcs|
  {
    if funcs != [] {
      var n := |funcs| - 1;
      IdsIff(c, funcs[..n], id);
      assert funcs == funcs[..n] + [funcs[n]];
      YieldsOne(c, funcs[n], id);
    }
  }

  method FuncIds(c: Capture, funcs: seq<Func>) returns (ids: seq<FuncId>)
    ensures ids == Ids(c, funcs)
  {
    ids := [];
    for i := 0 to |funcs|
      invariant ids == Ids(c, funcs[..i])
    {
      var f := funcs[i];
      assert funcs[..i + 1] == funcs[..i] + [f] && funcs[..i + 1][..i] == funcs[..i];
      if c.InOverlay(f.entry) && f.ranges != [] {
        var h := HashRanges(c, f.ranges);
        if h.Some? { ids := ids + [FuncId(Virtual(f.entry), h.value % 0x1_0000_0000, f.ranges)]; }
      }
    }
    assert funcs[..|funcs|] == funcs;
  }

  // ---- identities follow the code ----

  lemma CrcFits(data: seq<Byte>, crc: nat)
    requires crc <= MASK
    ensures Crc32(data, crc) <= MASK
  {
    Sizes();
    var c := Xor(crc, MASK);
    XorBound(crc, MASK, 32);
    UpdateFits(c, data);
    XorBound(Update(c, data), MASK, 32);
  }

  lemma CrcDiffers(p: seq<Byte>, q: seq<Byte>, a: seq<Byte>, x: Byte, y: Byte, b: seq<Byte>, crc: nat)
    requires p == a + [x] + b && q == a + [y] + b && x != y && crc <= MASK
    ensures Crc32(p, crc) % 0x1_0000_0000 != Crc32(q, crc) % 0x1_0000_0000
  {
    CrcFits(p, crc);
    CrcFits(q, crc);
    if Crc32(p, crc) == Crc32(q, crc) { OneByteChanges(a, x, y, b, crc); }
  }

  /** Captures whose code of a function differs in a single byte give it different identities. */
  lemma OneByteNewId(c: Capture, d: Capture, f: Func, a: seq<Byte>, x: Byte, y: Byte, b: seq<Byte>)
    requires AllHeld(c, f.ranges) && AllHeld(d, f.ranges) && x != y
    requires Code(c, f.ranges) == a + [x] + b && Code(d, f.ranges) == a + [y] + b
    ensures IdOf(c, f).crc != IdOf(d, f).crc
  {
    CrcDiffers(Code(c, f.ranges), Code(d, f.ranges), a, x, y, b, 0);
  }

  // ---- identities ignore data ----

  /** Two captures of the same region that agree on every byte of the given ranges. */
  ghost predicate AgreeOn(c: Capture, d: Capture, ranges: seq<Range>) {
    && c.load == d.load && c.size == d.size && |c.data| == |d.data|
    && forall i :: 0 <= i < |ranges| && c.Holds(ranges[i]) ==> c.Bytes(ranges[i]) == d.Bytes(ranges[i])
  }

  lemma {:induction false} SameCode(c: Capture, d: Capture, ranges: seq<Range>)
    requires AgreeOn(c, d, ranges) && AllHeld(c, ranges)
    ensures AllHeld(d, ranges) && Code(c, ranges) == Code(d, ranges)
    decreases |ranges|
  {
    if ranges != [] {
      var n := |ranges| - 1;
      assert forall i :: 0 <= i < n ==> ranges[..n][i] == ranges[i];
      SameCode(c, d, ranges[..n]);
    }
  }

  /** Captures that differ only outside the code ranges have the same identities. */
  lemma {:induction false} IdsIgnoreData(c: Capture, d: Capture, funcs: seq<Func>)
    requires forall i :: 0 <= i < |funcs| ==> AgreeOn(c, d, funcs[i].ranges)
    ensures Ids(c, funcs) == Ids(d, funcs)
    decreases |funcs|
  {
    if funcs != [] {
      var n := |funcs| - 1;
      assert forall i :: 0 <= i < n ==> funcs[..n][i] == funcs[i];
      IdsIgnoreData(c, d, funcs[..n]);
      if AllHeld(c, funcs[n].ranges) { SameCode(c, d, funcs[n].ranges); }
    }
  }
}
