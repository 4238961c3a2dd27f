/** The text manifests of the overlay cache: the printer, the readers, and the round trip. */
module Manifest {
  import opened Mips
  import opened Identity

  // ---- hexadecimal ----

  const DIGITS := "0123456789ABCDEF"

  function DigitValue(c: char): Option<nat> {
    if '0' <= c <= '9' then Some((c as int - '0' as int) as nat)
    else if 'A' <= c <= 'F' then Some((c as int - 'A' as int + 10) as nat)
    else if 'a' <= c <= 'f' then Some((c as int - 'a' as int + 10) as nat)
    else None
  }

  /** At least `width` upper-case digits. */
  function Hex(n: nat, width: nat): string
    decreases n, width
  {
    if n == 0 && width == 0 then ""
    else Hex(n / 16, if width == 0 then 0 else width - 1) + [DIGITS[n % 16]]
  }

  function ParseDigits(s: string): Option<nat>
    decreases |s|
  {
    if s == "" then Some(0)
    else
      var n := |s| - 1;
      match (ParseDigits(s[..n]), DigitValue(s[n]))
      case (Some(v), Some(d)) => Some(16 * v + d)
      case _ => None
  }

  /** `int(s, 16)` on plain digits; no digits is an error. */
  function ParseHex(s: string): Option<nat> { if s == "" then None else ParseDigits(s) }

  predicate Blank(c: char) { c in {' ', '\t', '\r', '\n'} }

  predicate Solid(s: string) { s != "" && forall i :: 0 <= i < |s| ==> !Blank(s[i]) }

  lemma DigitFacts(d: nat)
    requires d < 16
    ensures DigitValue(DIGITS[d]) == Some(d) && !Blank(DIGITS[d])
  {}

  lemma {:induction false} HexParses(n: nat, width: nat)
    ensures ParseDigits(Hex(n, width)) == Some(n)
    decreases n, width
  {
    if n != 0 || width != 0 {
      var w' := if width == 0 then 0 else width - 1;
      HexParses(n / 16, w');
      DigitFacts(n % 16);
      ParseSnoc(Hex(n / 16, w'), DIGITS[n % 16]);
    }
  }

  /** Upper-case and lower-case digits have the same value. */
  predicate SameDigit(c: char, d: char) {
    c == d || ('A' <= c <= 'F' && d as int == c as int + 32) || ('A' <= d <= 'F' && c as int == d as int + 32)
  }

  /** So numbers are read the same in either case, or in both. */
  lemma {:induction false} CaseBlind(s: string, t: string)
    requires |s| == |t| && forall i :: 0 <= i < |s| ==> SameDigit(s[i], t[i])
    ensures ParseHex(s) == ParseHex(t)
    decreases |s|
  {
    if s != "" {
      var n := |s| - 1;
      assert SameDigit(s[n], t[n]);
      CaseBlind(s[..n], t[..n]);
    }
  }

  lemma ParseSnoc(s: string, c: char)
    requires ParseDigits(s).Some? && DigitValue(c).Some?
    ensures ParseDigits(s + [c]) == Some(16 * ParseDigits(s).value + DigitValue(c).value)
  {
    assert (s + [c])[..|s|] == s;
  }

  lemma {:induction false} HexIsSolid(n: nat, width: nat)
    ensures forall i :: 0 <= i < |Hex(n, width)| ==> !Blank(Hex(n, width)[i])
    ensures width > 0 ==> Hex(n, width) != ""
    decreases n, width
  {
    if n != 0 || width != 0 {
      HexIsSolid(n / 16, if width == 0 then 0 else width - 1);
      DigitFacts(n % 16);
    }
  }

  lemma HexRoundTrip(n: nat, width: nat)
    requires width > 0
    ensures ParseHex(Hex(n, width)) == Some(n) && Solid(Hex(n, width))
  {
    HexParses(n, width);
    HexIsSolid(n, width);
  }

  // ---- the shape of the fields ----

  predicate UpperDigit(c: char) { '0' <= c <= '9' || 'A' <= c <= 'F' }

  lemma {:induction false} HexUpper(n: nat, width: nat)
    ensures forall i :: 0 <= i < |Hex(n, width)| ==> UpperDigit(Hex(n, width)[i])
    decreases n, width
  {
    if n != 0 || width != 0 {
      HexUpper(n / 16, if width == 0 then 0 else width - 1);
      assert UpperDigit(DIGITS[n % 16]);
    }
  }

  lemma FourMore(n: nat)
    ensures Pow2(n + 4) == 16 * Pow2(n)
  {
    assert Pow2(n + 2) == 4 * Pow2(n);
    assert Pow2(n + 4) == 4 * Pow2(n + 2);
  }

  lemma {:induction false} HexWidth(n: nat, width: nat)
    requires n < Pow2(4 * width)
    ensures |Hex(n, width)| == width
    decreases width
  {
    if width > 0 {
      FourMore(4 * (width - 1));
      HexWidth(n / 16, width - 1);
    }
  }

  /** The fields of a function line are eight upper-case digits each. */
  lemma FixedWidth(w: Word)
    ensures |Hex(w, 8)| == 8 && forall i :: 0 <= i < 8 ==> UpperDigit(Hex(w, 8)[i])
  {
    Sizes();
    HexWidth(w, 8);
    HexUpper(w, 8);
  }

  /** The length field of a range line has no leading zero. */
  lemma {:induction false} NoLeadingZero(n: nat, width: nat)
    requires n > 0 && width <= 1
    ensures Hex(n, width) != "" && Hex(n, width)[0] != '0' && Hex(n, 0) == Hex(n, width)
    decreases n
  {
    if n >= 16 {
      NoLeadingZero(n / 16, 0);
    } else {
      assert Hex(0, 0) == "" && n / 16 == 0 && n % 16 == n;
    }
  }

  // ---- lines and fields ----

  function WordLength(s: string): (n: nat)
    ensures n <= |s|
  {
    if s == "" || Blank(s[0]) then 0 else 1 + WordLength(s[1..])
  }

  /** `line.split()`. */
  function Fields(s: string): seq<string>
    decreases |s|
  {
    if s == "" then []
    else if Blank(s[0]) then Fields(s[1..])
    else
      var n := WordLength(s);
      [s[..n]] + Fields(s[n..])
  }

  lemma {:induction false} WordLengthOf(w: string, rest: string)
    requires (forall i :: 0 <= i < |w| ==> !Blank(w[i])) && (rest == "" || Blank(rest[0]))
    ensures WordLength(w + rest) == |w|
    decreases |w|
  {
    if w == "" {
      assert w + rest == rest;
    } else {
      assert (w + rest)[1..] == w[1..] + rest;
      WordLengthOf(w[1..], rest);
    }
  }

  lemma FieldsWord(w: string, rest: string)
    requires Solid(w) && (rest == "" || Blank(rest[0]))
    ensures Fields(w + rest) == [w] + Fields(rest)
  {
    WordLengthOf(w, rest);
    assert (w + rest)[..|w|] == w && (w + rest)[|w|..] == rest;
  }

  lemma {:induction false} WordStops(s: string, c: char, t: string)
    requires c in {' ', '\t', '\r', '\n'}
    ensures WordLength(s + [c] + t) == WordLength(s)
    decreases |s|
  {
    var all := s + [c] + t;
    if s != "" && !Blank(s[0]) {
      assert all[1..] == s[1..] + [c] + t;
      WordStops(s[1..], c, t);
    }
  }

  /** Any white space separates fields, and nothing else about it matters. */
  lemma {:induction false} FieldsSplit(s: string, c: char, t: string)
    requires c in {' ', '\t', '\r', '\n'}
    ensures Fields(s + [c] + t) == Fields(s) + Fields(t)
    decreases |s|
  {
    var all := s + [c] + t;
    if s == "" {
      assert all[1..] == t;
    } else if Blank(s[0]) {
      assert all[1..] == s[1..] + [c] + t;
      FieldsSplit(s[1..], c, t);
    } else {
      var n := WordLength(s);
      WordStops(s, c, t);
      assert n >= 1 && all[..n] == s[..n] && all[n..] == s[n..] + [c] + t;
      FieldsSplit(s[n..], c, t);
    }
  }

  lemma FieldsThree(a: string, b: string, c: string)
    requires Solid(a) && Solid(b) && Solid(c)
    ensures Fields(a + " " + b + " " + c) == [a, b, c]
  {
    var two := b + " " + c;
    assert c + "" == c;
    FieldsWord(c, "");
    assert Fields(c) == [c];
    FieldsSpaced(b, c);
    assert Fields(two) == [b, c];
    FieldsSpaced(a, two);
    assert a + " " + b + " " + c == a + " " + two;
  }

  lemma FieldsSpaced(w: string, rest: string)
    requires Solid(w)
    ensures Fields(w + " " + rest) == [w] + Fields(rest)
  {
    var t := " " + rest;
    assert t[1..] == rest && w + " " + rest == w + t;
    FieldsWord(w, t);
  }

  predicate OneLine(s: string) { forall i :: 0 <= i < |s| ==> s[i] != '\n' }

  function Lines(s: string): seq<string>
    decreases |s|
  {
    if s == "" then []
    else
      var n := LineLength(s);
      if n == |s| then [s] else [s[..n]] + Lines(s[n + 1..])
  }

  function LineLength(s: string): (n: nat)
    ensures n <= |s|
  {
    if s == "" || s[0] == '\n' then 0 else 1 + LineLength(s[1..])
  }

  lemma {:induction false} LineLengthOf(a: string, b: string)
    requires OneLine(a)
    ensures LineLength(a + "\n" + b) == |a|
    decreases |a|
  {
    if a != "" {
      assert (a + "\n" + b)[1..] == a[1..] + "\n" + b;
      LineLengthOf(a[1..], b);
    }
  }

  lemma FirstLine(a: string, b: string)
    requires OneLine(a)
    ensures Lines(a + "\n" + b) == [a] + Lines(b)
  {
    LineLengthOf(a, b);
    assert (a + "\n" + b)[..|a|] == a && (a + "\n" + b)[|a| + 1..] == b;
  }

  // ---- the readers ----

  /** What one line contributes to the coverage: `F <entry> <crc>`. */
  function LineCoverage(line: string): set<Id> {
    var f := Fields(line);
    if |f| >= 3 && f[0] == "F" && ParseHex(f[1]).Some? && ParseHex(f[2]).Some?
    then {Id(ParseHex(f[1]).value, ParseHex(f[2]).value)} else {}
  }

  /** What one line contributes to the entry set, physically masked. */
  function LineEntry(line: string): set<int> {
    var f := Fields(line);
    if |f| >= 2 && f[0] == "F" && ParseHex(f[1]).Some? then {Phys(ParseHex(f[1]).value)} else {}
  }

  ghost function Covers(lines: seq<string>): (r: set<Id>)
    ensures forall e :: e in r <==> exists i :: 0 <= i < |lines| && e in LineCoverage(lines[i])
  {
    var r := set i, e | 0 <= i < |lines| && e in LineCoverage(lines[i]) :: e;
    r
  }

  ghost predicate HasEntry(lines: seq<string>, a: int) { exists i :: 0 <= i < |lines| && a in LineEntry(lines[i]) }

  /** `load_region_coverage` over the manifests of one region. */
  method LoadCoverage(files: seq<string>) returns (covered: set<Id>)
    ensures forall e :: e in covered <==> exists f :: 0 <= f < |files| && e in Covers(Lines(files[f]))
  {
    covered := {};
    for f := 0 to |files|
      invariant forall e :: e in covered <==> exists g :: 0 <= g < f && e in Covers(Lines(files[g]))
    {
      var lines := Lines(files[f]);
      ghost var before := covered;
      for i := 0 to |lines|
        invariant forall e :: e in covered <==> e in before || exists j :: 0 <= j < i && e in LineCoverage(lines[j])
      {
        covered := covered + LineCoverage(lines[i]);
      }
    }
  }

  /** `load_region_entry_set` over the manifests of one region. */
  method LoadEntries(files: seq<string>) returns (entries: set<int>)
    ensures forall a :: a in entries <==> exists f :: 0 <= f < |files| && HasEntry(Lines(files[f]), a)
  {
    entries := {};
    for f := 0 to |files|
      invariant forall a :: a in entries <==> exists g :: 0 <= g < f && HasEntry(Lines(files[g]), a)
    {
      var lines := Lines(files[f]);
      ghost var before := entries;
      for i := 0 to |lines|
        invariant forall a :: a in entries <==> a in before || exists j :: 0 <= j < i && a in LineEntry(lines[j])
      {
        entries := entries + LineEntry(lines[i]);
      }
    }
  }

  // ---- the printer ----

  const TITLE := ["# psxrecomp ", "overlay code-range ", "manifest v2 ", "(entry+code_crc)"]
  const HEADER := TITLE[0] + TITLE[1] + TITLE[2] + TITLE[3]

  function FuncLine(f: FuncId): string { "F" + " " + Hex(f.entry, 8) + " " + Hex(f.crc, 8) }

  function RangeLine(r: Range): string { "R" + " " + Hex(Virtual(r.lo), 8) + " " + Hex(r.len, 1) }

  function RangeText(ranges: seq<Range>): string {
    if ranges == [] then "" else RangeLine(ranges[0]) + "\n" + RangeText(ranges[1..])
  }

  function FuncText(ids: seq<FuncId>): string {
    if ids == [] then "" else FuncLine(ids[0]) + "\n" + (RangeText(ids[0].ranges) + FuncText(ids[1..]))
  }

  function ManifestText(ids: seq<FuncId>): string { HEADER + "\n" + FuncText(ids) }

  // ---- the round trip ----

  lemma FuncLineFields(f: FuncId)
    ensures Fields(FuncLine(f)) == ["F", Hex(f.entry, 8), Hex(f.crc, 8)]
    ensures LineCoverage(FuncLine(f)) == {Id(f.entry, f.crc)} && LineEntry(FuncLine(f)) == {Phys(f.entry)}
    ensures OneLine(FuncLine(f))
  {
    HexRoundTrip(f.entry, 8);
    HexRoundTrip(f.crc, 8);
    FieldsThree("F", Hex(f.entry, 8), Hex(f.crc, 8));
  }

  /** Whatever follows a function's entry and CRC on its line is ignored. */
  lemma ExtraFields(f: FuncId, c: char, more: string)
    requires c in {' ', '\t', '\r', '\n'}
    ensures LineCoverage(FuncLine(f) + [c] + more) == {Id(f.entry, f.crc)}
    ensures LineEntry(FuncLine(f) + [c] + more) == {Phys(f.entry)}
  {
    FuncLineFields(f);
    HexRoundTrip(f.entry, 8);
    HexRoundTrip(f.crc, 8);
    FieldsSplit(FuncLine(f), c, more);
  }

  lemma RangeLineFields(r: Range)
    ensures LineCoverage(RangeLine(r)) == {} && LineEntry(RangeLine(r)) == {}
    ensures OneLine(RangeLine(r))
  {
    HexRoundTrip(Virtual(r.lo), 8);
    HexRoundTrip(r.len, 1);
    FieldsThree("R", Hex(Virtual(r.lo), 8), Hex(r.len, 1));
  }

  lemma CommentFields(line: string)
    requires line != "" && line[0] == '#'
    ensures LineCoverage(line) == {} && LineEntry(line) == {}
  {
    assert WordLength(line) >= 1;
    assert Fields(line)[0][0] == '#';
  }

  lemma HeaderIsOneLine()
    ensures HEADER != "" && HEADER[0] == '#' && OneLine(HEADER)
  {
    assert TITLE[0][0] == '#';
    assert OneLine(TITLE[0]) && OneLine(TITLE[1]) && OneLine(TITLE[2]) && OneLine(TITLE[3]);
  }

  /** The manifest lists entry `e` in the given lines. */
  ghost predicate Lists(lines: seq<string>, e: Id) { exists i :: 0 <= i < |lines| && e in LineCoverage(lines[i]) }

  lemma LinesCons(line: string, lines: seq<string>, e: Id, a: int)
    ensures Lists([line] + lines, e) <==> e in LineCoverage(line) || Lists(lines, e)
    ensures HasEntry([line] + lines, a) <==> a in LineEntry(line) || HasEntry(lines, a)
  {
    var all := [line] + lines;
    assert all[0] == line && forall i :: 0 <= i < |lines| ==> all[i + 1] == lines[i];
    if Lists(all, e) { var i :| 0 <= i < |all| && e in LineCoverage(all[i]); assert i > 0 ==> lines[i - 1] == all[i]; }
    if HasEntry(all, a) { var i :| 0 <= i < |all| && a in LineEntry(all[i]); assert i > 0 ==> lines[i - 1] == all[i]; }
    if Lists(lines, e) { var i :| 0 <= i < |lines| && e in LineCoverage(lines[i]); assert all[i + 1] == lines[i]; }
    if HasEntry(lines, a) { var i :| 0 <= i < |lines| && a in LineEntry(lines[i]); assert all[i + 1] == lines[i]; }
  }

  lemma {:induction false} RangesListNothing(ranges: seq<Range>, rest: string, e: Id, a: int)
    ensures Lists(Lines(RangeText(ranges) + rest), e) <==> Lists(Lines(rest), e)
    ensures HasEntry(Lines(RangeText(ranges) + rest), a) <==> HasEntry(Lines(rest), a)
    decreases |ranges|
  {
    if ranges == [] {
      assert RangeText(ranges) + rest == rest;
    } else {
      var line, more := RangeLine(ranges[0]), RangeText(ranges[1..]) + rest;
      assert RangeText(ranges) + rest == line + "\n" + more;
      RangeLineFields(ranges[0]);
      FirstLine(line, more);
      LinesCons(line, Lines(more), e, a);
      RangesListNothing(ranges[1..], rest, e, a);
    }
  }

  /** `e` is the identity of one of the functions, and `a` the physical entry of one. */
  ghost predicate Identifies(ids: seq<FuncId>, e: Id) {
    exists i :: 0 <= i < |ids| && e == Id(ids[i].entry, ids[i].crc)
  }

  ghost predicate Enters(ids: seq<FuncId>, a: int) { exists i :: 0 <= i < |ids| && a == Phys(ids[i].entry) }

  lemma IdsCons(ids: seq<FuncId>, e: Id, a: int)
    requires ids != []
    ensures Identifies(ids, e) <==> e == Id(ids[0].entry, ids[0].crc) || Identifies(ids[1..], e)
    ensures Enters(ids, a) <==> a == Phys(ids[0].entry) || Enters(ids[1..], a)
  {
    assert forall i :: 0 < i < |ids| ==> ids[i] == ids[1..][i - 1];
    assert forall i :: 0 <= i < |ids| - 1 ==> ids[1..][i] == ids[i + 1];
  }

  lemma {:induction false} FuncsListThemselves(ids: seq<FuncId>, e: Id, a: int)
    ensures Lists(Lines(FuncText(ids)), e) <==> Identifies(ids, e)
    ensures HasEntry(Lines(FuncText(ids)), a) <==> Enters(ids, a)
    decreases |ids|
  {
    if ids != [] {
      var line, rest := FuncLine(ids[0]), FuncText(ids[1..]);
      var more := RangeText(ids[0].ranges) + rest;
      FuncLineFields(ids[0]);
      FirstLine(line, more);
      LinesCons(line, Lines(more), e, a);
      RangesListNothing(ids[0].ranges, rest, e, a);
      FuncsListThemselves(ids[1..], e, a);
      IdsCons(ids, e, a);
    }
  }

  /** Writing a manifest and loading it again returns exactly its identities, and the
      entry set is their image under physical masking. */
  lemma ManifestRoundTrip(ids: seq<FuncId>, e: Id, a: int)
    ensures e in Covers(Lines(ManifestText(ids))) <==> Identifies(ids, e)
    ensures HasEntry(Lines(ManifestText(ids)), a) <==> Enters(ids, a)
  {
    HeaderIsOneLine();
    CommentFields(HEADER);
    FirstLine(HEADER, FuncText(ids));
    LinesCons(HEADER, Lines(FuncText(ids)), e, a);
    FuncsListThemselves(ids, e, a);
    assert e in Covers(Lines(ManifestText(ids))) <==> Lists(Lines(ManifestText(ids)), e);
  }
}
