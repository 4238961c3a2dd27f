/** Framing of JSON replies on the debug socket: the byte-at-a-time loop, the
    find-based loop that skips over strings, and what both must return. */
module Framer {
  import opened Mips

  const QUOTE: Byte := 0x22
  const BACKSLASH: Byte := 0x5C
  const OPEN: Byte := 0x7B
  const CLOSE: Byte := 0x7D

  /** The scanner state that persists across chunks. */
  datatype Lex = Lex(depth: int, inString: bool, escaped: bool, started: bool)

  const INIT := Lex(0, false, false, false)

  datatype Move = Next(st: Lex) | Complete

  function Feed(st: Lex, b: Byte): Move {
    if st.inString then
      if st.escaped then Next(st.(escaped := false))
      else if b == BACKSLASH then Next(st.(escaped := true))
      else if b == QUOTE then Next(st.(inString := false))
      else Next(st)
    else if b == QUOTE then Next(st.(inString := true))
    else if b == OPEN then Next(st.(depth := st.depth + 1, started := true))
    else if b == CLOSE then
      if st.started && st.depth == 1 then Complete else Next(st.(depth := st.depth - 1))
    else Next(st)
  }

  /** After a whole stretch of bytes: still open, or complete after `n` of them. */
  datatype Outcome = Open(st: Lex) | Found(n: nat)

  function Scan(st: Lex, s: seq<Byte>): Outcome
    decreases |s|
  {
    if s == [] then Open(st) else
    match Feed(st, s[0])
    case Complete => Found(1)
    case Next(st') => match Scan(st', s[1..]) case Open(f) => Open(f) case Found(n) => Found(n + 1)
  }

  lemma {:induction false} ScanConcat(st: Lex, a: seq<Byte>, b: seq<Byte>)
    ensures Scan(st, a + b) == match Scan(st, a)
                               case Found(n) => Found(n)
                               case Open(f) =>
                                 match Scan(f, b) case Open(f') => Open(f') case Found(n) => Found(|a| + n)
    decreases |a|
  {
    if a == [] {
      assert a + b == b;
    } else {
      assert (a + b)[0] == a[0] && (a + b)[1..] == a[1..] + b;
      var m := Feed(st, a[0]);
      if m.Next? { ScanConcat(m.st, a[1..], b); }
    }
  }

  lemma ScanSnoc(st: Lex, a: seq<Byte>, b: Byte)
    requires Scan(st, a).Open?
    ensures Scan(st, a + [b]) == match Feed(Scan(st, a).st, b) case Complete => Found(|a| + 1) case Next(f) => Open(f)
  {
    ScanConcat(st, a, [b]);
    assert [b][1..] == [];
  }

  // ---- what a reply is ----

  /** One complete object, or everything received before the peer closed. */
  datatype Reply = Object(text: seq<Byte>) | Rest(text: seq<Byte>)

  function Frame(stream: seq<Byte>): Reply {
    match Scan(INIT, stream)
    case Found(n) => if n <= |stream| then Object(stream[..n]) else Rest(stream)
    case Open(_) => Rest(stream)
  }

  /** The bytes received: `recv` returns the chunks in turn, and an empty one means closed. */
  function Stream(chunks: seq<seq<Byte>>): seq<Byte>
    decreases |chunks|
  {
    if chunks == [] || chunks[0] == [] then [] else chunks[0] + Stream(chunks[1..])
  }

  lemma {:induction false} FoundInRange(st: Lex, s: seq<Byte>)
    ensures Scan(st, s).Found? ==> 1 <= Scan(st, s).n <= |s|
    decreases |s|
  {
    if s != [] && Feed(st, s[0]).Next? { FoundInRange(Feed(st, s[0]).st, s[1..]); }
  }

  /** A completed prefix decides the reply, whatever follows. */
  lemma PrefixDecides(stream: seq<Byte>, n: nat)
    requires n <= |stream| && Scan(INIT, stream[..n]) == Found(n)
    ensures Frame(stream) == Object(stream[..n])
  {
    assert stream == stream[..n] + stream[n..];
    ScanConcat(INIT, stream[..n], stream[n..]);
  }

  // ---- the byte-at-a-time loop ----

  /** Scans the unread part of the buffer; `done` is the completed length, if any. */
  method ScanBytes(buf: seq<Byte>, pos0: nat, st0: Lex) returns (done: Option<nat>, st: Lex)
    requires pos0 <= |buf| && Scan(INIT, buf[..pos0]) == Open(st0)
    ensures done.Some? ==> done.value <= |buf| && Scan(INIT, buf[..done.value]) == Found(done.value)
    ensures done.None? ==> Scan(INIT, buf) == Open(st)
  {
    var pos := pos0;
    st := st0;
    while pos < |buf|
      invariant pos0 <= pos <= |buf| && Scan(INIT, buf[..pos]) == Open(st)
    {
      assert buf[..pos + 1] == buf[..pos] + [buf[pos]];
      ScanSnoc(INIT, buf[..pos], buf[pos]);
      var m := Feed(st, buf[pos]);
      if m.Complete? { return Some(pos + 1), st; }
      st := m.st;
      pos := pos + 1;
    }
    assert buf[..pos] == buf;
    done := None;
  }

  // ---- the fast loop ----

  /** `bytearray.find`: the first occurrence at or after `pos`, or the length if there is none. */
  method Find(buf: seq<Byte>, b: Byte, pos: nat) returns (i: nat)
    requires pos <= |buf|
    ensures pos <= i <= |buf| && (i < |buf| ==> buf[i] == b)
    ensures forall j :: pos <= j < i ==> buf[j] != b
  {
    i := pos;
    while i < |buf| && buf[i] != b
      invariant pos <= i <= |buf| && forall j :: pos <= j < i ==> buf[j] != b
    {
      i := i + 1;
    }
  }

  /** Inside a string, bytes that are neither quote nor backslash can be skipped. */
  lemma {:induction false} SkipPlain(st: Lex, s: seq<Byte>)
    requires st.inString && !st.escaped && forall i :: 0 <= i < |s| ==> s[i] != QUOTE && s[i] != BACKSLASH
    ensures Scan(st, s) == Open(st)
    decreases |s|
  {
    if s != [] { SkipPlain(st, s[1..]); }
  }

  lemma Skip(buf: seq<Byte>, pos: nat, q: nat, st: Lex)
    requires pos <= q <= |buf| && Scan(INIT, buf[..pos]) == Open(st) && st.inString && !st.escaped
    requires forall i :: pos <= i < q ==> buf[i] != QUOTE && buf[i] != BACKSLASH
    ensures Scan(INIT, buf[..q]) == Open(st)
  {
    assert buf[..q] == buf[..pos] + buf[pos..q];
    SkipPlain(st, buf[pos..q]);
    ScanConcat(INIT, buf[..pos], buf[pos..q]);
  }

  lemma FeedNext(buf: seq<Byte>, pos: nat, st: Lex)
    requires pos < |buf| && Scan(INIT, buf[..pos]) == Open(st)
    ensures Scan(INIT, buf[..pos + 1]) ==
              match Feed(st, buf[pos]) case Complete => Found(pos + 1) case Next(f) => Open(f)
  {
    assert buf[..pos + 1] == buf[..pos] + [buf[pos]];
    ScanSnoc(INIT, buf[..pos], buf[pos]);
  }

  method ScanFast(buf: seq<Byte>, pos0: nat, st0: Lex) returns (done: Option<nat>, st: Lex)
    requires pos0 <= |buf| && Scan(INIT, buf[..pos0]) == Open(st0)
    ensures done.Some? ==> done.value <= |buf| && Scan(INIT, buf[..done.value]) == Found(done.value)
    ensures done.None? ==> Scan(INIT, buf) == Open(st)
  {
    var pos := pos0;
    st := st0;
    while pos < |buf|
      invariant pos0 <= pos <= |buf| && Scan(INIT, buf[..pos]) == Open(st)
      decreases |buf| - pos
    {
      if st.inString {
        if st.escaped {
          FeedNext(buf, pos, st);
          st, pos := st.(escaped := false), pos + 1;
          continue;
        }
        var q := Find(buf, QUOTE, pos);
        var bs := Find(buf, BACKSLASH, pos);
        if q == |buf| && bs == |buf| {
          Skip(buf, pos, |buf|, st);
          pos := |buf|;
          break;
        }
        if bs < q {
          Skip(buf, pos, bs, st);
          FeedNext(buf, bs, st);
          st, pos := st.(escaped := true), bs + 1;
          continue;
        }
        Skip(buf, pos, q, st);
        FeedNext(buf, q, st);
        st, pos := st.(inString := false), q + 1;
        continue;
      }
      FeedNext(buf, pos, st);
      var b := buf[pos];
      if b == QUOTE {
        st := st.(inString := true);
      } else if b == OPEN {
        st := st.(depth := st.depth + 1, started := true);
      } else if b == CLOSE {
        st := st.(depth := st.depth - 1);
        if st.started && st.depth == 0 { return Some(pos + 1), st; }
      }
      pos := pos + 1;
    }
    assert buf[..pos] == buf;
    done := None;
  }

  // ---- receiving ----

  lemma StreamNext(chunks: seq<seq<Byte>>, i: nat)
    requires i < |chunks|
    ensures Stream(chunks[i..]) == if chunks[i] == [] then [] else chunks[i] + Stream(chunks[i + 1..])
  {
    assert chunks[i..][0] == chunks[i] && chunks[i..][1..] == chunks[i + 1..];
  }

  /** What holds between two `recv` calls: `buf` is the part of the stream read so far, and no
      object is complete in it. */
  ghost predicate Receiving(chunks: seq<seq<Byte>>, i: nat, buf: seq<Byte>, st: Lex) {
    i <= |chunks| && Stream(chunks) == buf + Stream(chunks[i..]) && Scan(INIT, buf) == Open(st)
  }

  lemma Closed(chunks: seq<seq<Byte>>, i: nat, buf: seq<Byte>, st: Lex)
    requires Receiving(chunks, i, buf, st) && (i == |chunks| || chunks[i] == [])
    ensures Frame(Stream(chunks)) == Rest(buf)
  {
    if i < |chunks| { StreamNext(chunks, i); }
    assert Stream(chunks) == buf;
  }

  /** Appends one chunk and scans it, with either scanner. */
  method ReceiveChunk(chunks: seq<seq<Byte>>, i: nat, buf0: seq<Byte>, st0: Lex, fast: bool)
    returns (buf: seq<Byte>, st: Lex, done: Option<nat>)
    requires i < |chunks| && chunks[i] != [] && Receiving(chunks, i, buf0, st0)
    ensures done.None? ==> Receiving(chunks, i + 1, buf, st)
    ensures done.Some? ==> done.value <= |buf| && Frame(Stream(chunks)) == Object(buf[..done.value])
  {
    StreamNext(chunks, i);
    buf := buf0 + chunks[i];
    assert Stream(chunks) == buf + Stream(chunks[i + 1..]);
    assert buf[..|buf0|] == buf0;
    if fast { done, st := ScanFast(buf, |buf0|, st0); } else { done, st := ScanBytes(buf, |buf0|, st0); }
    if done.Some? {
      assert Stream(chunks)[..done.value] == buf[..done.value];
      PrefixDecides(Stream(chunks), done.value);
    }
  }

  /** Both receive loops (`fast` selects the scanner): the reply depends on the
      concatenated stream alone, neither on its chunking nor on the scanner. */
  method Receive(chunks: seq<seq<Byte>>, fast: bool) returns (r: Reply)
    ensures r == Frame(Stream(chunks))
  {
    var buf: seq<Byte>, st, i := [], INIT, 0;
    assert chunks[0..] == chunks && [] + Stream(chunks) == Stream(chunks);
    while i < |chunks| && chunks[i] != []
      invariant Receiving(chunks, i, buf, st)
    {
      var done;
      buf, st, done := ReceiveChunk(chunks, i, buf, st, fast);
      if done.Some? { return Object(buf[..done.value]); }
      i := i + 1;
    }
    Closed(chunks, i, buf, st);
    r := Rest(buf);
  }

  // ---- what is framed: one JSON object ----

  /** The text of an object as the framer sees it. Everything other than strings and
      nested objects (numbers, names, commas, brackets, white space) is plain bytes. */
  datatype Items = Nil | Cons(head: Item, tail: Items)
  datatype Item = Plain(b: Byte) | Text(chars: seq<Char>) | Nested(items: Items)

  /** A string character: itself, or anything after a backslash (section 7 of RFC 8259). */
  datatype Char = Literal(b: Byte) | Escape(b: Byte)

  predicate WellFormed(t: Items) {
    match t
    case Nil => true
    case Cons(Plain(b), tail) => b !in {QUOTE, OPEN, CLOSE} && WellFormed(tail)
    case Cons(Text(cs), tail) => (forall i :: 0 <= i < |cs| ==> GoodChar(cs[i])) && WellFormed(tail)
    case Cons(Nested(n), tail) => WellFormed(n) && WellFormed(tail)
  }

  predicate GoodChar(c: Char) { c.Literal? ==> c.b !in {QUOTE, BACKSLASH} }

  function Chars(cs: seq<Char>): seq<Byte> {
    if cs == [] then [] else (match cs[0] case Literal(b) => [b] case Escape(b) => [BACKSLASH, b]) + Chars(cs[1..])
  }

  function Print(t: Items): seq<Byte> {
    match t
    case Nil => []
    case Cons(Plain(b), tail) => [b] + Print(tail)
    case Cons(Text(cs), tail) => [QUOTE] + Chars(cs) + [QUOTE] + Print(tail)
    case Cons(Nested(n), tail) => [OPEN] + Print(n) + [CLOSE] + Print(tail)
  }

  /** Scanning `a` and then `b`, when `a` leaves the scanner open. */
  lemma Then(st: Lex, a: seq<Byte>, f: Lex, b: seq<Byte>, g: Lex)
    requires Scan(st, a) == Open(f) && Scan(f, b) == Open(g)
    ensures Scan(st, a + b) == Open(g)
  {
    ScanConcat(st, a, b);
  }

  lemma ScanOne(st: Lex, b: Byte)
    ensures Scan(st, [b]) == match Feed(st, b) case Complete => Found(1) case Next(f) => Open(f)
  {
    assert [b][1..] == [];
  }

  lemma {:induction false} ScanChars(st: Lex, cs: seq<Char>)
    requires st.inString && !st.escaped && forall i :: 0 <= i < |cs| ==> GoodChar(cs[i])
    ensures Scan(st, Chars(cs)) == Open(st)
    decreases |cs|
  {
    if cs != [] {
      assert GoodChar(cs[0]);
      ScanChars(st, cs[1..]);
      match cs[0] {
        case Literal(b) =>
          ScanOne(st, b);
          Then(st, [b], st, Chars(cs[1..]), st);
        case Escape(b) =>
          var esc := st.(escaped := true);
          ScanOne(st, BACKSLASH);
          ScanOne(esc, b);
          Then(st, [BACKSLASH], esc, [b], st);
          assert [BACKSLASH] + [b] == [BACKSLASH, b];
          Then(st, [BACKSLASH, b], st, Chars(cs[1..]), st);
      }
    }
  }

  /** Inside an object, its contents leave the scanner as they found it. */
  lemma {:induction false} ScanItems(st: Lex, t: Items)
    requires WellFormed(t) && !st.inString && !st.escaped && st.started && st.depth >= 1
    ensures Scan(st, Print(t)) == Open(st)
    decreases t
  {
    match t {
      case Nil =>
      case Cons(Plain(b), tail) =>
        ScanOne(st, b);
        ScanItems(st, tail);
        Then(st, [b], st, Print(tail), st);
      case Cons(Text(cs), tail) =>
        var str := st.(inString := true);
        ScanOne(st, QUOTE);
        ScanChars(str, cs);
        Then(st, [QUOTE], str, Chars(cs), str);
        ScanOne(str, QUOTE);
        Then(st, [QUOTE] + Chars(cs), str, [QUOTE], st);
        ScanItems(st, tail);
        Then(st, [QUOTE] + Chars(cs) + [QUOTE], st, Print(tail), st);
      case Cons(Nested(n), tail) =>
        var deep := st.(depth := st.depth + 1);
        ScanOne(st, OPEN);
        ScanItems(deep, n);
        Then(st, [OPEN], deep, Print(n), deep);
        ScanOne(deep, CLOSE);
        Then(st, [OPEN] + Print(n), deep, [CLOSE], st);
        ScanItems(st, tail);
        Then(st, [OPEN] + Print(n) + [CLOSE], st, Print(tail), st);
    }
  }

  lemma {:induction false} ScanLoose(s: seq<Byte>)
    requires forall i :: 0 <= i < |s| ==> s[i] !in {QUOTE, OPEN, CLOSE}
    ensures Scan(INIT, s) == Open(INIT)
    decreases |s|
  {
    if s != [] { ScanLoose(s[1..]); }
  }

  /** Exactly one object is framed, with the plain bytes before it and whatever bytes follow it. */
  lemma OneObjectPerReply(before: seq<Byte>, t: Items, after: seq<Byte>)
    requires WellFormed(t) && forall i :: 0 <= i < |before| ==> before[i] !in {QUOTE, OPEN, CLOSE}
    ensures Frame(before + [OPEN] + Print(t) + [CLOSE] + after) == Object(before + [OPEN] + Print(t) + [CLOSE])
  {
    var inside := Lex(1, false, false, true);
    var body := before + [OPEN] + Print(t);
    ScanLoose(before);
    ScanOne(INIT, OPEN);
    Then(INIT, before, INIT, [OPEN], inside);
    ScanItems(inside, t);
    Then(INIT, before + [OPEN], inside, Print(t), inside);
    ScanSnoc(INIT, body, CLOSE);
    var text := body + [CLOSE];
    assert (text + after)[..|text|] == text;
    PrefixDecides(text + after, |text|);
  }
}
