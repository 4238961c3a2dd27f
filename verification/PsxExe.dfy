/** The PS-X EXE container: the overlay tool writes one around each captured image, and
    the recompiler and the Ghidra importer read it back. */
module PsxExe {
  import opened Mips
  import B = BasicBlocks

  const HEADER_SIZE: nat := 2048

  const MAGIC: seq<Byte> := [0x50, 0x53, 0x2D, 0x58, 0x20, 0x45, 0x58, 0x45]

  /** The header fields the tools read. */
  datatype Header = Header(entry: Word, load: Word, size: Word, fillStart: Word, fillSize: Word) {
    function End(): Word { Wrap(load + size) }

    predicate EntryInRange() { load <= entry < End() }
  }

  datatype Exe = Exe(header: Header, code: seq<Byte>)

  function Bytes(w: Word): seq<Byte> { [w % 0x100, w / 0x100 % 0x100, w / 0x1_0000 % 0x100, w / 0x100_0000] }

  function Zeros(n: nat): (s: seq<Byte>)
    ensures |s| == n && forall i :: 0 <= i < n ==> s[i] == 0
  {
    seq(n, i => 0)
  }

  function WordAt(buf: seq<Byte>, off: nat): Word
    requires off + 4 <= |buf|
  {
    LittleEndian(buf[off], buf[off + 1], buf[off + 2], buf[off + 3])
  }

  /** `make_psxexe`: packing a value that is not a 32-bit word is an error. */
  function Make(load: int, entry: int, data: seq<Byte>): Option<seq<Byte>> {
    if 0 <= load < 0x1_0000_0000 && 0 <= entry < 0x1_0000_0000 && |data| < 0x1_0000_0000
    then Some(MakeHeader(load, entry, |data|) + data)
    else None
  }

  function MakeHeader(load: Word, entry: Word, size: Word): seq<Byte> {
    Layout(Bytes(entry), Bytes(0), Bytes(load), Bytes(size))
  }

  /** The header with its four stored fields; every other byte is zero. */
  function Layout(entry: seq<Byte>, gp: seq<Byte>, load: seq<Byte>, size: seq<Byte>): seq<Byte> {
    (MAGIC + Zeros(8)) + (entry + gp + load + size) + Zeros(2016)
  }

  function ReadHeader(buf: seq<Byte>): Header
    requires HEADER_SIZE <= |buf|
  {
    Header(WordAt(buf, 0x10), WordAt(buf, 0x18), WordAt(buf, 0x1C), WordAt(buf, 0x28), WordAt(buf, 0x2C))
  }

  /** Addresses inside the RAM mirror move to the cached segment; zero stays zero. */
  function ToKseg0(a: Word): Word { if a != 0 && a < 0x20_0000 then a + 0x8000_0000 else a }

  predicate InKseg0(a: Word) { 0x8000_0000 <= a < 0xA000_0000 }

  predicate ValidHeader(h: Header) {
    InKseg0(h.load) && 0 < h.size <= 0x20_0000 && h.End() <= 0x8020_0000 && InKseg0(h.entry)
  }

  /** `parse_buffer`. */
  function Parse(buf: seq<Byte>): Option<Exe> {
    if |buf| < HEADER_SIZE + 4 || buf[..8] != MAGIC then None else Checked(ReadHeader(buf), buf[HEADER_SIZE..])
  }

  /** The segment move and the checks on a header read from a file with this code. */
  function Checked(raw: Header, code: seq<Byte>): Option<Exe> {
    var h := raw.(entry := ToKseg0(raw.entry), load := ToKseg0(raw.load), fillStart := ToKseg0(raw.fillStart));
    if !ValidHeader(h) || |code| != h.size then None
    else if h.fillSize > 0 && h.fillStart < h.End() then None
    else Some(Exe(h, code))
  }

  /** `read_word`. */
  function ReadCode(exe: Exe, a: Word): Option<Word> {
    if a < exe.header.load || exe.header.End() <= a then None else
    var off := a - exe.header.load;
    if off + 3 >= |exe.code| then None else Some(WordAt(exe.code, off))
  }

  /** `psx_exe_metadata`: the importer's own reading of the container. */
  function Import(buf: seq<Byte>): Option<Exe> {
    if |buf| < HEADER_SIZE || buf[..8] != MAGIC then None else
    var h := ReadHeader(buf);
    if h.size == 0 || HEADER_SIZE + h.size > |buf| then None
    else Some(Exe(h, buf[HEADER_SIZE..HEADER_SIZE + h.size]))
  }

  lemma WordRoundTrip(w: Word)
    ensures LittleEndian(Bytes(w)[0], Bytes(w)[1], Bytes(w)[2], Bytes(w)[3]) == w
  {
    var h := w / 0x1_0000;
    assert w / 0x100_0000 == h / 0x100;
    assert h == 0x100 * (h / 0x100) + h % 0x100;
    assert w % 0x1_0000 == 0x100 * (w / 0x100 % 0x100) + w % 0x100;
  }

  lemma LayoutFields(e: seq<Byte>, g: seq<Byte>, l: seq<Byte>, n: seq<Byte>, data: seq<Byte>, buf: seq<Byte>)
    requires |e| == |g| == |l| == |n| == 4 && buf == Layout(e, g, l, n) + data
    ensures |buf| == HEADER_SIZE + |data| && buf[HEADER_SIZE..] == data && buf[..8] == MAGIC
    ensures buf[0x10..0x14] == e && buf[0x18..0x1C] == l && buf[0x1C..0x20] == n
    ensures buf[0x28..0x2C] == Zeros(4) && buf[0x2C..0x30] == Zeros(4)
  {
    var front, mid, rest := MAGIC + Zeros(8), e + g + l + n, Zeros(2016);
    assert buf == front + mid + rest + data && |front| == 16 && |mid| == 16;
    assert buf[0x10..0x20] == mid;
    assert mid[..4] == e && mid[8..12] == l && mid[12..] == n;
    assert buf[0x20..0x800] == rest;
  }

  lemma FieldReads(buf: seq<Byte>, off: nat, w: Word)
    requires off + 4 <= |buf| && buf[off..off + 4] == Bytes(w)
    ensures WordAt(buf, off) == w
  {
    var f := buf[off..off + 4];
    assert f[0] == buf[off] && f[1] == buf[off + 1] && f[2] == buf[off + 2] && f[3] == buf[off + 3];
    WordRoundTrip(w);
  }

  /** `buf` is a file with these header fields and this code. */
  ghost predicate Holds(buf: seq<Byte>, h: Header, data: seq<Byte>) {
    |buf| == HEADER_SIZE + |data| && buf[..8] == MAGIC && buf[HEADER_SIZE..] == data && ReadHeader(buf) == h
  }

  lemma HeaderReads(load: Word, entry: Word, data: seq<Byte>, buf: seq<Byte>)
    requires |data| < 0x1_0000_0000 && buf == MakeHeader(load, entry, |data|) + data
    ensures Holds(buf, Header(entry, load, |data|, 0, 0), data)
  {
    LayoutFields(Bytes(entry), Bytes(0), Bytes(load), Bytes(|data|), data, buf);
    assert Bytes(0) == Zeros(4);
    FieldReads(buf, 0x10, entry);
    FieldReads(buf, 0x18, load);
    FieldReads(buf, 0x1C, |data|);
    FieldReads(buf, 0x28, 0);
    FieldReads(buf, 0x2C, 0);
  }

  /** When the recompiler takes an image: its range, once moved to the cached segment,
      lies in RAM, it has at least one instruction, and its entry is a cached address. */
  predicate Loadable(load: Word, entry: Word, size: nat) {
    InKseg0(ToKseg0(load)) && 4 <= size && ToKseg0(load) + size <= 0x8020_0000 && InKseg0(ToKseg0(entry))
  }

  /** Writing then parsing returns the image exactly when it is loadable, and otherwise
      nothing: no other input is taken and none is altered beyond the segment move. */
  lemma MakeParses(load: Word, entry: Word, data: seq<Byte>)
    requires |data| < 0x1_0000_0000
    ensures Make(load, entry, data).Some?
    ensures Parse(Make(load, entry, data).value) == Expected(load, entry, data)
  {
    var buf := Make(load, entry, data).value;
    HeaderReads(load, entry, data, buf);
    HeldParses(load, entry, data, buf);
  }

  function Expected(load: Word, entry: Word, data: seq<Byte>): Option<Exe>
    requires |data| < 0x1_0000_0000
  {
    if Loadable(load, entry, |data|) then Some(Exe(Header(ToKseg0(entry), ToKseg0(load), |data|, 0, 0), data)) else None
  }

  lemma HeldParses(load: Word, entry: Word, data: seq<Byte>, buf: seq<Byte>)
    requires |data| < 0x1_0000_0000 && Holds(buf, Header(entry, load, |data|, 0, 0), data)
    ensures Parse(buf) == Expected(load, entry, data)
  {
    CheckedIff(load, entry, data);
  }

  lemma CheckedIff(load: Word, entry: Word, data: seq<Byte>)
    requires |data| < 0x1_0000_0000
    ensures 4 <= |data| ==> Checked(Header(entry, load, |data|, 0, 0), data) == Expected(load, entry, data)
  {}

  /** The header's own range test is the test on the captured image, so an entry inside
      the image is in range and no other is. */
  lemma EntryInRangeIff(load: Word, entry: Word, data: seq<Byte>, exe: Exe)
    requires |data| < 0x1_0000_0000 && Parse(Make(load, entry, data).value) == Some(exe)
    ensures exe.header.EntryInRange() <==> ToKseg0(load) <= ToKseg0(entry) < ToKseg0(load) + |data|
  {
    MakeParses(load, entry, data);
    InRange(load, entry, data, exe);
  }

  lemma InRange(load: Word, entry: Word, data: seq<Byte>, exe: Exe)
    requires |data| < 0x1_0000_0000 && Expected(load, entry, data) == Some(exe)
    ensures exe.header.EntryInRange() <==> ToKseg0(load) <= ToKseg0(entry) < ToKseg0(load) + |data|
  {}

  /** In particular any address of the image, taken as entry, is in range. */
  lemma ImageEntryInRange(load: Word, entry: Word, data: seq<Byte>, exe: Exe)
    requires |data| < 0x1_0000_0000 && Parse(Make(load, entry, data).value) == Some(exe)
    requires load <= entry < load + |data|
    ensures exe.header.EntryInRange()
  {
    MakeParses(load, entry, data);
    EntryInRangeIff(load, entry, data, exe);
    assert load != 0 && Loadable(load, entry, |data|);
  }

  /** The words read through the container are those of the captured image, at every
      address of its cached segment. */
  lemma WordsSurvive(load: Word, entry: Word, data: seq<Byte>, a: Word, exe: Exe)
    requires |data| < 0x1_0000_0000 && Parse(Make(load, entry, data).value) == Some(exe)
    ensures ReadCode(exe, a).Some? <==> a in FromBytes(data, ToKseg0(load), |data|).words
    ensures ReadCode(exe, a).Some? ==> Decode(ReadCode(exe, a).value) == FromBytes(data, ToKseg0(load), |data|).words[a]
  {
    MakeParses(load, entry, data);
    WordsRead(load, entry, data, a, exe);
    ImageWords(data, ToKseg0(load), |data|, a);
  }

  lemma WordsRead(load: Word, entry: Word, data: seq<Byte>, a: Word, exe: Exe)
    requires |data| < 0x1_0000_0000 && Expected(load, entry, data) == Some(exe)
    ensures ReadCode(exe, a).Some? <==> Captured(data, ToKseg0(load), a)
    ensures Captured(data, ToKseg0(load), a) ==> ReadCode(exe, a) == Some(WordAt(data, a - ToKseg0(load)))
  {}

  lemma ImageWords(data: seq<Byte>, load: nat, size: nat, a: int)
    ensures a in FromBytes(data, load, size).words <==> Captured(data, load, a)
    ensures Captured(data, load, a) ==> FromBytes(data, load, size).words[a] == Decode(WordAt(data, a - load))
  {
    if Captured(data, load, a) { ImageWord(data, load, a); }
  }

  lemma ImageWord(data: seq<Byte>, load: nat, a: int)
    requires Captured(data, load, a)
    ensures ReadWord(data, load, a) == Decode(WordAt(data, a - load))
  {}

  /** Whatever the recompiler accepts the importer accepts, with the same code and with
      addresses that differ at most by the segment move. */
  lemma ImporterAgrees(buf: seq<Byte>)
    requires Parse(buf).Some?
    ensures Import(buf).Some? && Import(buf).value.code == Parse(buf).value.code
    ensures ToKseg0(Import(buf).value.header.load) == Parse(buf).value.header.load
    ensures ToKseg0(Import(buf).value.header.entry) == Parse(buf).value.header.entry
  {
    assert buf[HEADER_SIZE..|buf|] == buf[HEADER_SIZE..];
  }

  /** The code lies in the 2 MB of RAM once moved to the cached segment, the entry is in that
      segment, and a zero fill, if any, starts behind the code. */
  predicate Placed(h: Header) {
    && 0x8000_0000 <= ToKseg0(h.load) && ToKseg0(h.load) + h.size <= 0x8020_0000
    && 0x8000_0000 <= ToKseg0(h.entry) < 0xA000_0000
    && (h.fillSize == 0 || ToKseg0(h.load) + h.size <= ToKseg0(h.fillStart))
  }

  lemma CheckedWhen(raw: Header, code: seq<Byte>)
    ensures Checked(raw, code).Some? <==> Placed(raw) && 0 < raw.size == |code|
  {}

  /** Exactly which files the recompiler takes: the magic, at least one word of code of the
      stated size, and a header that places it in RAM. */
  lemma AcceptedIff(buf: seq<Byte>)
    ensures Parse(buf).Some?
       <==> (|buf| >= 2052 && buf[..8] == MAGIC && Placed(ReadHeader(buf)) && |buf| == 2048 + ReadHeader(buf).size)
  {
    if |buf| >= 2052 { CheckedWhen(ReadHeader(buf), buf[HEADER_SIZE..]); }
  }

  /** What the parser accepts satisfies what the block analysis asks of an executable. */
  lemma ParsedIsAnalysable(buf: seq<Byte>)
    requires Parse(buf).Some?
    ensures var exe := Parse(buf).value;
            var img := FromBytes(exe.code, exe.header.load, exe.header.size);
            && (forall i :: 0 <= i < img.size / 4 ==> img.load + 4 * i in img.words)
            && B.Decoded(img, exe.header.entry).Valid()
  {
    AcceptedIff(buf);
  }
}
