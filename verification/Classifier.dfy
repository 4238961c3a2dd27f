/** The overlay seed classifier: which captured PCs become walk roots, interior
    aliases, promoted kernel roots or rejects. Sets are iterated in no particular
    order, so what is proved holds for every order the tool may use. */
module Classifier {
  import opened Mips
  import opened OverlayWalker
  import Collections

  datatype Reason =
    | DispatchEntry | DirectJalTarget | FunctionPointerTarget | TomlDeclaredEntry | DispatchInterior | DispatchRoot
    | BranchTargetOnly | ObservedPcOnly | Unknown

  predicate Fatal(r: Reason) { r in {BranchTargetOnly, ObservedPcOnly, Unknown} }

  /** What the boundary tests look at: the image, the jump-table labels found before
      seeding, and the range of the main executable. */
  datatype Context = Context(img: Image, tables: set<int>, gameLo: int, gameHi: int) {
    predicate KernelWindow() { Phys(img.load) < 0x1_0000 }

    /** No known memory at this address. */
    predicate BadTarget(a: int) {
      && !(Phys(img.load) <= Phys(a) < Phys(img.load) + img.size)
      && !(gameLo < gameHi && gameLo <= Phys(a) < gameHi)
      && !(0x1FC0_0000 <= Phys(a) < 0x1FC8_0000 || 0xBFC0_0000 <= a < 0xBFC8_0000)
    }

    predicate ImpossibleStart(a: int) {
      || a !in img.words
      || !IsValid(img.words[a])
      || (match Classify(a, img.words[a])
          case Jump(t) => BadTarget(t)
          case Call(t) => img.InRegion(t) && !Callable(img, t)
          case _ => false)
    }
  }

  /** The address `offset` bytes into a 512 MB segment; all segments show the same memory. */
  function InSegment(segment: int, offset: int): int { segment * 0x2000_0000 + offset }

  lemma SegmentOffset(segment: int, offset: int)
    requires 0 <= offset < 0x2000_0000
    ensures Phys(InSegment(segment, offset)) == offset
  {}

  /** The kernel window is the first 64 KB of memory, in whichever segment it is loaded. */
  lemma KernelWindowIff(ctx: Context, segment: int, offset: int)
    requires ctx.img.load == InSegment(segment, offset) && 0 <= offset < 0x2000_0000
    ensures ctx.KernelWindow() <==> offset < 0x1_0000
  {
    SegmentOffset(segment, offset);
  }

  /** A target is bad unless its memory, in whichever segment, belongs to the image, to the
      main executable or to the BIOS ROM. */
  lemma BadTargetIff(ctx: Context, segment: int, offset: int, home: int, base: int)
    requires 0 <= offset < 0x2000_0000 && 0 <= base < 0x2000_0000 && ctx.img.load == InSegment(home, base)
    ensures ctx.BadTarget(InSegment(segment, offset))
       <==> !(|| base <= offset < base + ctx.img.size || ctx.gameLo <= offset < ctx.gameHi
              || 0x1FC0_0000 <= offset < 0x1FC8_0000)
  {
    SegmentOffset(segment, offset);
    SegmentOffset(home, base);
  }

  /** A dispatched PC cannot start a function if its word is missing or invalid, jumps to a bad
      target, or calls an address of the region without boundary evidence. */
  lemma ImpossibleIff(ctx: Context, a: int)
    ensures ctx.ImpossibleStart(a)
       <==> (|| a !in ctx.img.words || !IsValid(ctx.img.words[a])
             || (ctx.img.words[a].op == 0x02 && ctx.BadTarget(JumpTarget(a, ctx.img.words[a])))
             || (&& ctx.img.words[a].op == 0x03 && ctx.img.InRegion(JumpTarget(a, ctx.img.words[a]))
                 && !Callable(ctx.img, JumpTarget(a, ctx.img.words[a]))))
  {}

  // ---- including one address ----

  /** What the two dictionaries hold for one address. */
  datatype Cell = Cell(inc: Option<Reason>, exc: Option<Reason>)

  datatype Seeds = Seeds(included: map<int, Reason>, excluded: map<int, Reason>) {
    function At(a: int): Cell {
      Cell(if a in included then Some(included[a]) else None, if a in excluded then Some(excluded[a]) else None)
    }

    function Put(a: int, c: Cell): Seeds {
      Seeds(if c.inc.Some? then included[a := c.inc.value] else included - {a},
            if c.exc.Some? then excluded[a := c.exc.value] else excluded - {a})
    }

    predicate IsRoot(a: int) { a in included && included[a] != DispatchInterior }
    predicate IsInterior(a: int) { a in included && included[a] == DispatchInterior }
    predicate IsPromoted(a: int) { a in included && included[a] == DispatchRoot }
  }

  function Decide(ctx: Context, c: Cell, a: int, reason: Reason): Cell {
    if !ctx.img.InRegion(a) then c.(exc := Some(Unknown))
    else if reason == DispatchEntry && ctx.ImpossibleStart(a) then c.(exc := Some(Unknown))
    else if reason == DispatchEntry && (a in ctx.tables || !Callable(ctx.img, a)) then
      if c.inc.None? then c.(inc := Some(DispatchInterior)) else c
    else if reason != DispatchEntry && reason != TomlDeclaredEntry && a in ctx.tables && !Callable(ctx.img, a) then
      c.(exc := Some(BranchTargetOnly))
    else if c.inc.None? || c.inc.value in {FunctionPointerTarget, DispatchInterior} then c.(inc := Some(reason))
    else c
  }

  function Include(ctx: Context, st: Seeds, a: int, reason: Reason): Seeds {
    st.Put(a, Decide(ctx, st.At(a), a, reason))
  }

  lemma PutAt(st: Seeds, a: int, c: Cell, b: int)
    ensures st.Put(a, c).At(b) == if b == a then c else st.At(b)
  {}

  // ---- the initial seeding ----

  datatype Capture = Capture(dispatch: set<int>, functions: set<int>, toml: set<int>, legacy: set<int>,
                             executed: set<int>, hasSchema: bool)

  /** Legacy `seeds` whose surrounding bytes look callable. */
  predicate LegacyCallable(img: Image, cap: Capture, a: int) { a in cap.legacy && img.InRegion(a) && Callable(img, a) }

  /** What the four seeding phases leave for one address, in terms of that address alone. */
  function SeedCell(ctx: Context, cap: Capture, a: int): Cell {
    var c0 := Cell(None, None);
    var c1 := if a in cap.dispatch then Decide(ctx, c0, a, DispatchEntry) else c0;
    var c2 := if a in cap.functions then Decide(ctx, c1, a, FunctionPointerTarget) else c1;
    var c3 := if a in cap.toml then Decide(ctx, c2, a, TomlDeclaredEntry) else c2;
    if !cap.hasSchema && LegacyCallable(ctx.img, cap, a) then Decide(ctx, c3, a, FunctionPointerTarget) else c3
  }

  method IncludeAll(ctx: Context, st: Seeds, addrs: set<int>, reason: Reason) returns (out: Seeds)
    ensures forall a :: out.At(a) == if a in addrs then Decide(ctx, st.At(a), a, reason) else st.At(a)
  {
    var q := Collections.Ordered(addrs);
    out := st;
    for i := 0 to |q|
      invariant forall a :: out.At(a) == if a in q[..i] then Decide(ctx, st.At(a), a, reason) else st.At(a)
    {
      var a := q[i];
      assert q[..i + 1] == q[..i] + [a] && a !in q[..i];
      ghost var before := out;
      out := Include(ctx, out, a, reason);
      forall b ensures out.At(b) == if b == a then Decide(ctx, before.At(a), a, reason) else before.At(b) {
        PutAt(before, a, Decide(ctx, before.At(a), a, reason), b);
      }
    }
    assert q[..|q|] == q;
  }

  method Seed(ctx: Context, cap: Capture) returns (st: Seeds)
    ensures forall a :: st.At(a) == SeedCell(ctx, cap, a)
  {
    st := Seeds(map[], map[]);
    st := IncludeAll(ctx, st, cap.dispatch, DispatchEntry);
    st := IncludeAll(ctx, st, cap.functions, FunctionPointerTarget);
    st := IncludeAll(ctx, st, cap.toml, TomlDeclaredEntry);
    if !cap.hasSchema {
      var legacy := set a | a in cap.legacy && LegacyCallable(ctx.img, cap, a);
      st := IncludeAll(ctx, st, legacy, FunctionPointerTarget);
    }
  }

  // ---- what the dictionaries may hold ----

  /** Every stored reason carries its proof, and no fatal reason is ever included. */
  ghost predicate Sound(ctx: Context, cap: Capture, a: int, c: Cell) {
    && (c.exc.Some? ==> Fatal(c.exc.value))
    && (c.inc.Some? ==>
          && ctx.img.InRegion(a) && !Fatal(c.inc.value)
          && match c.inc.value
             case DispatchEntry =>
               a in cap.dispatch && a !in ctx.tables && Callable(ctx.img, a) && !ctx.ImpossibleStart(a)
             case DispatchInterior =>
               a in cap.dispatch && ValidAt(ctx.img, a) && (a in ctx.tables || !Callable(ctx.img, a))
             case DispatchRoot => a in cap.dispatch && ValidAt(ctx.img, a) && ctx.KernelWindow()
             case DirectJalTarget => Callable(ctx.img, a)
             case TomlDeclaredEntry => a in cap.toml
             case _ =>
               (a in cap.functions || LegacyCallable(ctx.img, cap, a)) && (a in ctx.tables ==> Callable(ctx.img, a)))
  }

  predicate ValidAt(img: Image, a: int) { a in img.words && IsValid(img.words[a]) }

  ghost predicate AllSound(ctx: Context, cap: Capture, st: Seeds) { forall a :: Sound(ctx, cap, a, st.At(a)) }

  lemma SeedSound(ctx: Context, cap: Capture, a: int)
    ensures Sound(ctx, cap, a, SeedCell(ctx, cap, a))
  {}

  /** What seeding decides, as a priority of evidence: a dispatched PC at a proven boundary,
      a declared entry, a function pointer that is not a bare table label, a dispatched PC
      inside some function, in this order. */
  lemma SeedMeaning(ctx: Context, cap: Capture, a: int)
    ensures var possible := a in cap.dispatch && !ctx.ImpossibleStart(a);
            SeedCell(ctx, cap, a).inc ==
              if !(ctx.img.load <= a < ctx.img.load + ctx.img.size && a % 4 == 0) then None
              else if possible && a !in ctx.tables && Callable(ctx.img, a) then Some(DispatchEntry)
              else if a in cap.toml then Some(TomlDeclaredEntry)
              else if Pointed(ctx, cap, a) && (a in ctx.tables ==> Callable(ctx.img, a))
              then Some(FunctionPointerTarget)
              else if possible then Some(DispatchInterior)
              else None
  {}

  predicate Pointed(ctx: Context, cap: Capture, a: int) {
    a in cap.functions || (!cap.hasSchema && LegacyCallable(ctx.img, cap, a))
  }

  /** What seeding rejects: addresses outside the region or unaligned, function pointers that are bare table
      labels, and dispatched PCs that cannot start a function. */
  lemma SeedRejects(ctx: Context, cap: Capture, a: int)
    ensures SeedCell(ctx, cap, a).exc ==
              if !(ctx.img.load <= a < ctx.img.load + ctx.img.size && a % 4 == 0) then
                (if a in cap.dispatch || a in cap.functions || a in cap.toml then Some(Unknown) else None)
              else if a in cap.functions && a in ctx.tables && !Callable(ctx.img, a) then Some(BranchTargetOnly)
              else if a in cap.dispatch && ctx.ImpossibleStart(a) then Some(Unknown)
              else None
  {}

  ghost predicate RootsAre(st: Seeds, known: set<int>) { forall a :: a in known <==> st.IsRoot(a) }

  /** Roots keep their reasons, nothing is dropped, no interior appears, and only interiors
      are promoted. */
  ghost predicate Grows(st: Seeds, st': Seeds) {
    && (forall a :: st.IsRoot(a) ==> st'.IsRoot(a) && st'.included[a] == st.included[a])
    && (forall a :: st'.IsInterior(a) ==> st.IsInterior(a))
    && (forall a :: st'.IsPromoted(a) ==> st.IsPromoted(a) || st.IsInterior(a))
    && (forall a :: a in st.included ==> a in st'.included)
    && (forall a :: st'.At(a).exc == st.At(a).exc)
  }

  // ---- hard caps ----

  /** `c` is the next root above `entry`, or the end of the region. */
  predicate IsCap(known: set<int>, entry: int, hi: int, c: int) {
    if c in known && c > entry then forall k :: k in known && k > entry ==> c <= k
    else c == hi && forall k :: k in known ==> k <= entry
  }

  method HardCap(known: set<int>, entry: int, hi: int) returns (c: int)
    ensures IsCap(known, entry, hi, c)
  {
    var q := Collections.Ordered(known);
    c := hi;
    var found := false;
    for i := 0 to |q|
      invariant if found then c in known && c > entry && forall j :: 0 <= j < i && q[j] > entry ==> c <= q[j]
                else c == hi && forall j :: 0 <= j < i ==> q[j] <= entry
    {
      if q[i] > entry && (!found || q[i] < c) { c, found := q[i], true; }
    }
  }

  // ---- walking the pending roots ----

  /** `r` was walked up to a cap no lower than its present one, and every direct call
      that walk found is a root. */
  ghost predicate Settled(img: Image, known: set<int>, r: int) {
    exists c, w :: SettledBy(img, known, r, c, w)
  }

  ghost predicate SettledBy(img: Image, known: set<int>, r: int, c: int, w: Walk) {
    && (c == img.Hi() || (c in known && r < c))
    && IsWalk(img, r, c, w) && forall t :: t in w.directJals ==> t in known
  }

  /** Some root's walk found a direct call of `t`. */
  ghost predicate CalledBy(img: Image, known: set<int>, t: int) {
    exists r, c, w :: r in known && IsWalk(img, r, c, w) && t in w.directJals
  }

  ghost predicate AllCalled(img: Image, st: Seeds, known: set<int>) {
    forall t :: t in st.included && st.included[t] == DirectJalTarget ==> CalledBy(img, known, t)
  }

  lemma CalledGrows(img: Image, st: Seeds, known: set<int>, st': Seeds, known': set<int>)
    requires AllCalled(img, st, known) && forall a :: a in known ==> a in known'
    requires forall t :: t in st'.included && st'.included[t] == DirectJalTarget ==>
               (t in st.included && st.included[t] == DirectJalTarget) || CalledBy(img, known', t)
    ensures AllCalled(img, st', known')
  {
    forall t | t in st.included && st.included[t] == DirectJalTarget ensures CalledBy(img, known', t) {
      var r, c, w :| r in known && IsWalk(img, r, c, w) && t in w.directJals;
    }
  }

  ghost predicate Ready(ctx: Context, cap: Capture, st: Seeds, known: set<int>, pending: seq<int>,
                        processed: set<int>) {
    && AllSound(ctx, cap, st) && RootsAre(st, known) && AllCalled(ctx.img, st, known)
    && (forall r :: r in processed || r in pending ==> r in known)
    && (forall r :: r in known ==> r in processed || r in pending)
    && (forall r :: r in processed ==> Settled(ctx.img, known, r))
  }

  lemma SettledGrows(img: Image, known: set<int>, known': set<int>, r: int)
    requires Settled(img, known, r) && forall a :: a in known ==> a in known'
    ensures Settled(img, known', r)
  {
    var c, w :| SettledBy(img, known, r, c, w);
    assert SettledBy(img, known', r, c, w);
  }

  /** A callable in-region call target that is not yet a root becomes one. */
  lemma JalBecomesRoot(ctx: Context, cap: Capture, st: Seeds, t: int)
    requires AllSound(ctx, cap, st) && ctx.img.InRegion(t) && Callable(ctx.img, t) && !st.IsRoot(t)
    ensures Include(ctx, st, t, DirectJalTarget).IsRoot(t)
    ensures Include(ctx, st, t, DirectJalTarget).At(t).inc == Some(DirectJalTarget)
    ensures AllSound(ctx, cap, Include(ctx, st, t, DirectJalTarget))
    ensures Grows(st, Include(ctx, st, t, DirectJalTarget))
    ensures forall a :: a != t ==> st.At(a) == Include(ctx, st, t, DirectJalTarget).At(a)
  {
    var c := Decide(ctx, st.At(t), t, DirectJalTarget);
    var st' := Include(ctx, st, t, DirectJalTarget);
    assert Sound(ctx, cap, t, st.At(t));
    assert c == st.At(t).(inc := Some(DirectJalTarget));
    forall a ensures st'.At(a) == if a == t then c else st.At(a) { PutAt(st, t, c, a); }
    forall a ensures Sound(ctx, cap, a, st'.At(a)) { assert Sound(ctx, cap, a, st.At(a)); }
    assert forall a :: (st'.IsRoot(a) <==> st'.At(a).inc.Some? && st'.At(a).inc.value != DispatchInterior);
    assert forall a :: (st.IsRoot(a) <==> st.At(a).inc.Some? && st.At(a).inc.value != DispatchInterior);
  }

  method AddJals(ctx: Context, ghost cap: Capture, st0: Seeds, known0: set<int>, jals: set<int>)
    returns (st: Seeds, known: set<int>, added: seq<int>)
    requires AllSound(ctx, cap, st0) && RootsAre(st0, known0)
    requires forall t :: t in jals ==> ctx.img.InRegion(t) && Callable(ctx.img, t)
    ensures AllSound(ctx, cap, st) && RootsAre(st, known) && Grows(st0, st)
    ensures forall a :: a in known <==> a in known0 || a in jals
    ensures forall a :: a in added <==> a in jals && a !in known0
    ensures forall a :: st.At(a) == st0.At(a) || (a in jals && st.At(a).inc == Some(DirectJalTarget))
  {
    var q := Collections.Ordered(jals);
    st, known, added := st0, known0, [];
    for i := 0 to |q|
      invariant AllSound(ctx, cap, st) && RootsAre(st, known) && Grows(st0, st)
      invariant forall a :: a in known <==> a in known0 || a in q[..i]
      invariant forall a :: a in added <==> a in q[..i] && a !in known0
      invariant forall a :: st.At(a) == st0.At(a) || (a in q[..i] && st.At(a).inc == Some(DirectJalTarget))
    {
      var t := q[i];
      assert q[..i + 1] == q[..i] + [t] && t !in q[..i];
      if t !in known {
        JalBecomesRoot(ctx, cap, st, t);
        st := Include(ctx, st, t, DirectJalTarget);
        known, added := known + {t}, added + [t];
      }
    }
    assert q[..|q|] == q;
  }

  function Region(img: Image): set<int> { set a | img.load <= a < img.Hi() && img.InRegion(a) }

  ghost predicate NonePromoted(st: Seeds, st': Seeds) { forall a :: st'.IsPromoted(a) ==> st.IsPromoted(a) }

  /** Walking one root up to the next one, and rooting the direct calls it finds. */
  method Process(ctx: Context, ghost cap: Capture, st0: Seeds, known0: set<int>, entry: int)
    returns (st: Seeds, known: set<int>, added: seq<int>)
    requires AllSound(ctx, cap, st0) && RootsAre(st0, known0) && AllCalled(ctx.img, st0, known0) && entry in known0
    ensures AllSound(ctx, cap, st) && RootsAre(st, known) && Grows(st0, st) && AllCalled(ctx.img, st, known)
    ensures forall a :: a in known <==> a in known0 || a in added
    ensures Settled(ctx.img, known, entry) && NonePromoted(st0, st)
  {
    var c := HardCap(known0, entry, ctx.img.Hi());
    var w := WalkFunction(ctx.img, entry, c);
    WalkFacts(ctx.img, entry, c, w);
    st, known, added := AddJals(ctx, cap, st0, known0, w.directJals);
    assert SettledBy(ctx.img, known, entry, c, w);
    forall t | t in w.directJals ensures CalledBy(ctx.img, known, t) {}
    forall t | t in st.included && st.included[t] == DirectJalTarget && t !in w.directJals
      ensures t in st0.included && st0.included[t] == DirectJalTarget
    { assert st.At(t) == st0.At(t); }
    CalledGrows(ctx.img, st0, known0, st, known);
    forall a | st.IsPromoted(a) ensures st0.IsPromoted(a) { assert st.At(a) == st0.At(a); }
  }

  /** Processing the first pending root keeps the loop invariant. */
  lemma Processed(ctx: Context, cap: Capture, st: Seeds, known: set<int>, pending: seq<int>, processed: set<int>,
                  entry: int, st': Seeds, known': set<int>, added: seq<int>)
    requires Ready(ctx, cap, st, known, [entry] + pending, processed)
    requires AllSound(ctx, cap, st') && RootsAre(st', known') && AllCalled(ctx.img, st', known')
    requires (forall a :: a in known' <==> a in known || a in added) && Settled(ctx.img, known', entry)
    ensures Ready(ctx, cap, st', known', pending + added, processed + {entry})
  {
    forall r | r in processed ensures Settled(ctx.img, known', r) { SettledGrows(ctx.img, known, known', r); }
  }

  method Drain(ctx: Context, ghost cap: Capture, st0: Seeds, known0: set<int>, pending0: seq<int>, processed0: set<int>)
    returns (st: Seeds, known: set<int>, processed: set<int>)
    requires Ready(ctx, cap, st0, known0, pending0, processed0)
    ensures Ready(ctx, cap, st, known, [], processed) && Grows(st0, st) && NonePromoted(st0, st)
    ensures forall r :: r in known0 ==> r in known
  {
    st, known, processed := st0, known0, processed0;
    var pending := pending0;
    while pending != []
      invariant Ready(ctx, cap, st, known, pending, processed) && Grows(st0, st) && NonePromoted(st0, st)
      invariant forall r :: r in known0 ==> r in known
      decreases Region(ctx.img) - processed, |pending|
    {
      var entry := pending[0];
      assert pending == [entry] + pending[1..];
      pending := pending[1..];
      if entry in processed { continue; }
      assert entry in Region(ctx.img) by { assert Sound(ctx, cap, entry, st.At(entry)); }
      var st', known', added := Process(ctx, cap, st, known, entry);
      Processed(ctx, cap, st, known, pending, processed, entry, st', known', added);
      st, known, pending, processed := st', known', pending + added, processed + {entry};
    }
  }

  // ---- walking the whole root set ----

  ghost predicate RootWalk(img: Image, known: set<int>, r: int, w: Walk) {
    exists c :: IsCap(known, r, img.Hi(), c) && IsWalk(img, r, c, w)
  }

  /** One walk per root, each up to the next root. */
  ghost predicate RootWalks(img: Image, known: set<int>, ws: map<int, Walk>) {
    (forall r :: r in known <==> r in ws) && forall r :: r in ws ==> RootWalk(img, known, r, ws[r])
  }

  ghost predicate Lies(img: Image, known: set<int>, a: int) {
    exists r, w :: r in known && RootWalk(img, known, r, w) && a in w.visited
  }

  method WalkRoots(img: Image, known: set<int>) returns (ws: map<int, Walk>)
    ensures RootWalks(img, known, ws)
  {
    var q := Collections.Ordered(known);
    ws := map[];
    for i := 0 to |q|
      invariant forall r :: r in ws <==> r in q[..i]
      invariant forall r :: r in ws ==> RootWalk(img, known, r, ws[r])
    {
      var r := q[i];
      assert q[..i + 1] == q[..i] + [r];
      var c := HardCap(known, r, img.Hi());
      var w := WalkFunction(img, r, c);
      assert RootWalk(img, known, r, w);
      ws := ws[r := w];
    }
    assert q[..|q|] == q;
  }

  /** The addresses that the walks visit. */
  function Covered(ws: map<int, Walk>): set<int> { set r, a | r in ws && a in ws[r].visited :: a }

  function TableTargets(ws: map<int, Walk>): set<int> { set r, a | r in ws && a in ws[r].tableTargets :: a }

  /** The branch and table targets of the walks. */
  function BranchTargets(ws: map<int, Walk>): set<int> {
    (set r, a | r in ws && a in ws[r].branchTargets :: a) + TableTargets(ws)
  }

  // ---- promotion of kernel orphans ----

  function Interiors(st: Seeds): set<int> { set a | a in st.included && st.IsInterior(a) }

  function Promote(st: Seeds, a: int): Seeds { st.(included := st.included[a := DispatchRoot]) }

  lemma PromoteKeeps(ctx: Context, cap: Capture, st: Seeds, a: int)
    requires AllSound(ctx, cap, st) && st.IsInterior(a) && ctx.KernelWindow()
    ensures AllSound(ctx, cap, Promote(st, a)) && Grows(st, Promote(st, a))
    ensures Promote(st, a).IsRoot(a) && a in Interiors(st) && a !in Interiors(Promote(st, a))
    ensures forall b :: b != a ==> (st.IsRoot(b) <==> Promote(st, a).IsRoot(b))
  {
    forall b ensures Sound(ctx, cap, b, Promote(st, a).At(b)) { assert Sound(ctx, cap, b, st.At(b)); }
  }

  method Least(s: set<int>) returns (x: int)
    requires s != {}
    ensures x in s && forall y :: y in s ==> x <= y
  {
    var q := Collections.Ordered(s);
    ghost var m := Collections.Member(s);
    x := q[0];
    for i := 1 to |q|
      invariant x in s && forall j :: 0 <= j < i ==> x <= q[j]
    {
      if q[i] < x { x := q[i]; }
    }
  }

  /** Exactly the interiors that the walks of this pass, one per root, do not visit. */
  method Orphans(ctx: Context, ghost cap: Capture, st: Seeds, known: set<int>)
    returns (orphans: set<int>, ws: map<int, Walk>)
    requires AllSound(ctx, cap, st)
    ensures RootWalks(ctx.img, known, ws)
    ensures forall a :: a in orphans <==> st.IsInterior(a) && a !in Covered(ws)
  {
    ws := WalkRoots(ctx.img, known);
    var covered := Covered(ws);
    orphans := set a | a in st.included && st.IsInterior(a) && a !in covered && ValidAt(ctx.img, a);
    forall a | st.IsInterior(a) ensures ValidAt(ctx.img, a) { assert Sound(ctx, cap, a, st.At(a)); }
  }

  lemma CoveredLies(img: Image, known: set<int>, ws: map<int, Walk>, a: int)
    requires RootWalks(img, known, ws) && a in Covered(ws)
    ensures Lies(img, known, a)
  {
    var r :| r in ws && a in ws[r].visited;
    assert RootWalk(img, known, r, ws[r]);
  }

  /** `a` was promoted rightly: some earlier root set, walked root by root, visited all the
      lower interiors of that time (those that are left, and those promoted later), but
      not `a`. */
  ghost predicate OrphanIn(img: Image, st: Seeds, known: set<int>, a: int, past: set<int>, ws: map<int, Walk>) {
    && (forall r :: r in past ==> r in known) && a !in past && RootWalks(img, past, ws) && a !in Covered(ws)
    && forall b :: b < a && (st.IsInterior(b) || (st.IsPromoted(b) && b !in past)) ==> b in Covered(ws)
  }

  ghost predicate WasOrphan(img: Image, st: Seeds, known: set<int>, a: int) {
    exists past, ws :: OrphanIn(img, st, known, a, past, ws)
  }

  ghost predicate AllOrphans(img: Image, st: Seeds, known: set<int>) {
    forall a :: st.IsPromoted(a) ==> WasOrphan(img, st, known, a)
  }

  lemma OrphansGrow(img: Image, st: Seeds, known: set<int>, st': Seeds, known': set<int>)
    requires AllOrphans(img, st, known) && Grows(st, st') && forall r :: r in known ==> r in known'
    requires forall a :: st'.IsPromoted(a) && !st.IsPromoted(a) ==> WasOrphan(img, st', known', a)
    ensures AllOrphans(img, st', known')
  {
    forall a | st.IsPromoted(a) ensures WasOrphan(img, st', known', a) {
      var past, ws :| OrphanIn(img, st, known, a, past, ws);
      assert OrphanIn(img, st', known', a, past, ws);
    }
  }

  /** The fixed point: drain the pending roots, then promote the lowest kernel orphan, until neither applies. */
  method FixRoots(ctx: Context, ghost cap: Capture, st0: Seeds, known0: set<int>) returns (st: Seeds, known: set<int>)
    requires AllSound(ctx, cap, st0) && RootsAre(st0, known0) && AllCalled(ctx.img, st0, known0)
    requires forall a :: !st0.IsPromoted(a)
    ensures AllSound(ctx, cap, st) && RootsAre(st, known) && Grows(st0, st) && AllCalled(ctx.img, st, known)
    ensures forall r :: r in known ==> Settled(ctx.img, known, r)
    ensures ctx.KernelWindow() ==> forall a :: st.IsInterior(a) ==> Lies(ctx.img, known, a)
    ensures AllOrphans(ctx.img, st, known)
  {
    var pending := Collections.Ordered(known0);
    var processed: set<int> := {};
    st, known := st0, known0;
    while true
      invariant Ready(ctx, cap, st, known, pending, processed) && Grows(st0, st) && AllOrphans(ctx.img, st, known)
      decreases Interiors(st)
    {
      ghost var before, st1, known1 := Interiors(st), st, known;
      st, known, processed := Drain(ctx, cap, st, known, pending, processed);
      OrphansGrow(ctx.img, st1, known1, st, known);
      assert Interiors(st) <= before;
      if !ctx.KernelWindow() { break; }
      var orphans, ws := Orphans(ctx, cap, st, known);
      if orphans == {} {
        forall a | st.IsInterior(a) ensures Lies(ctx.img, known, a) { CoveredLies(ctx.img, known, ws, a); }
        break;
      }
      var a := Least(orphans);
      Promoted(ctx, cap, st, known, processed, a);
      PromotedOrphan(ctx.img, st, known, a, ws);
      st, known, pending := Promote(st, a), known + {a}, [a];
    }
  }

  lemma PromotedOrphan(img: Image, st: Seeds, known: set<int>, a: int, ws: map<int, Walk>)
    requires RootsAre(st, known) && AllOrphans(img, st, known) && st.IsInterior(a) && Grows(st, Promote(st, a))
    requires RootWalks(img, known, ws) && a !in Covered(ws)
    requires forall b :: b < a && st.IsInterior(b) ==> b in Covered(ws)
    ensures AllOrphans(img, Promote(st, a), known + {a})
  {
    var st' := Promote(st, a);
    assert OrphanIn(img, st', known + {a}, a, known, ws);
    OrphansGrow(img, st, known, st', known + {a});
  }

  /** Promoting an orphan keeps the loop invariant. */
  lemma Promoted(ctx: Context, cap: Capture, st: Seeds, known: set<int>, processed: set<int>, a: int)
    requires Ready(ctx, cap, st, known, [], processed) && st.IsInterior(a) && ctx.KernelWindow()
    ensures Ready(ctx, cap, Promote(st, a), known + {a}, [a], processed) && Grows(st, Promote(st, a))
    ensures a in Interiors(st) && a !in Interiors(Promote(st, a))
  {
    PromoteKeeps(ctx, cap, st, a);
    forall r | r in processed ensures Settled(ctx.img, known + {a}, r) { SettledGrows(ctx.img, known, known + {a}, r); }
    CalledGrows(ctx.img, st, known, Promote(st, a), known + {a});
  }

  /** Direct-call closure: below any cap, a harmless root calls only roots. */
  lemma JalClosure(img: Image, known: set<int>, r: int, w: Walk)
    requires forall k :: k in known ==> k < img.Hi()
    requires Settled(img, known, r) && HarmlessWalk(img, r, img.Hi()) && RootWalk(img, known, r, w)
    ensures forall t :: t in w.directJals ==> t in known
  {
    var c, old_w :| SettledBy(img, known, r, c, old_w);
    var now :| IsCap(known, r, img.Hi(), now) && IsWalk(img, r, now, w);
    CapShrinks(img, r, img.Hi(), c);
    WalkFacts(img, r, c, old_w);
    CapShrinks(img, r, c, now);
    WalkFacts(img, r, now, w);
  }

  // ---- the classifier ----

  datatype Result = Result(ctx: Context, st: Seeds, roots: set<int>)

  /** Everything that a seed list of the capture mentions, inside the region. */
  predicate Candidate(img: Image, cap: Capture, a: int) {
    a in cap.executed + cap.dispatch + cap.functions + cap.legacy + cap.toml && img.InRegion(a)
  }

  /** The roots that are assumed while jump-table labels are looked for. */
  predicate PreRoot(img: Image, cap: Capture, a: int) {
    && img.InRegion(a)
    && (LegacyCallable(img, cap, a) || a in cap.functions || a in cap.toml || (a in cap.dispatch && Callable(img, a)))
  }

  /** Why an address that was not included is excluded. */
  function Verdict(cap: Capture, tables: set<int>, branches: set<int>, a: int): Reason {
    if a in branches || a in tables then BranchTargetOnly
    else if a in cap.executed || a in cap.legacy then ObservedPcOnly
    else Unknown
  }

  method Exclude(cap: Capture, ctx: Context, st0: Seeds, branches: set<int>) returns (st: Seeds)
    ensures st.included == st0.included
    ensures forall a :: st.At(a).exc == if Candidate(ctx.img, cap, a) && a !in st0.included
                                        then Some(Verdict(cap, ctx.tables, branches, a)) else st0.At(a).exc
  {
    var all := cap.executed + cap.dispatch + cap.functions + cap.legacy + cap.toml;
    var rejected := map a | a in all && Candidate(ctx.img, cap, a) && a !in st0.included ::
                      Verdict(cap, ctx.tables, branches, a);
    st := st0.(excluded := st0.excluded + rejected);
  }

  function PreRoots(img: Image, cap: Capture): set<int> {
    set a | a in cap.dispatch + cap.functions + cap.legacy + cap.toml && PreRoot(img, cap, a)
  }

  /** The table labels are those that walking the assumed roots finds. */
  ghost predicate TablesFound(img: Image, cap: Capture, tables: set<int>) {
    exists ws :: RootWalks(img, PreRoots(img, cap), ws) && tables == TableTargets(ws)
  }

  /** Candidates that were not included are excluded with the verdict of the final walks;
      the rest of the exclusions are those of the seeding. */
  ghost predicate Excluded(cap: Capture, r: Result) {
    exists ws :: RootWalks(r.ctx.img, r.roots, ws) && ExcludedBy(cap, r, ws)
  }

  ghost predicate ExcludedBy(cap: Capture, r: Result, ws: map<int, Walk>) {
    forall a :: r.st.At(a).exc == if Candidate(r.ctx.img, cap, a) && a !in r.st.included
                                  then Some(Verdict(cap, r.ctx.tables, BranchTargets(ws), a))
                                  else SeedCell(r.ctx, cap, a).exc
  }

  /** Seeded roots stay what they are; seeded interiors stay, become direct call targets or
      are promoted; nothing else is interior or promoted. */
  ghost predicate SeedsKept(cap: Capture, r: Result) {
    forall a :: var c := SeedCell(r.ctx, cap, a).inc;
      && (c.Some? ==> a in r.st.included)
      && (c.Some? && c.value != DispatchInterior ==> r.st.included[a] == c.value)
      && (r.st.IsInterior(a) || r.st.IsPromoted(a) ==> c == Some(DispatchInterior))
  }

  /** What a finished classification guarantees. */
  ghost predicate Classified(cap: Capture, r: Result) {
    && TablesFound(r.ctx.img, cap, r.ctx.tables)
    && AllSound(r.ctx, cap, r.st) && RootsAre(r.st, r.roots) && SeedsKept(cap, r)
    && AllCalled(r.ctx.img, r.st, r.roots) && AllOrphans(r.ctx.img, r.st, r.roots)
    && (forall a :: a in r.roots ==> Settled(r.ctx.img, r.roots, a))
    && (r.ctx.KernelWindow() ==> forall a :: r.st.IsInterior(a) ==> Lies(r.ctx.img, r.roots, a))
    && Excluded(cap, r)
  }

  method ClassifySeeds(img: Image, cap: Capture, gameLo: int, gameHi: int) returns (r: Result)
    ensures r.ctx.img == img && r.ctx.gameLo == gameLo && r.ctx.gameHi == gameHi
    ensures Classified(cap, r)
  {
    var pre := WalkRoots(img, PreRoots(img, cap));
    var ctx := Context(img, TableTargets(pre), gameLo, gameHi);
    assert TablesFound(img, cap, ctx.tables);
    var st := Seed(ctx, cap);
    ghost var seeded := st;
    forall a ensures Sound(ctx, cap, a, st.At(a)) { SeedSound(ctx, cap, a); }
    var known := set a | a in st.included && st.IsRoot(a);
    forall a | a in st.included ensures st.included[a] != DirectJalTarget && st.included[a] != DispatchRoot {
      SeedMeaning(ctx, cap, a);
      assert st.At(a).inc.Some?;
    }
    st, known := FixRoots(ctx, cap, st, known);
    var ws := WalkRoots(img, known);
    ghost var fixed := st;
    st := Exclude(cap, ctx, st, BranchTargets(ws));
    r := Result(ctx, st, known);
    Finish(ctx, cap, seeded, fixed, ws, r);
  }

  lemma Finish(ctx: Context, cap: Capture, seeded: Seeds, fixed: Seeds, ws: map<int, Walk>, r: Result)
    requires (forall a :: seeded.At(a) == SeedCell(ctx, cap, a)) && forall a :: !seeded.IsPromoted(a)
    requires AllSound(ctx, cap, fixed) && RootsAre(fixed, r.roots) && Grows(seeded, fixed)
    requires AllCalled(ctx.img, fixed, r.roots) && AllOrphans(ctx.img, fixed, r.roots)
    requires TablesFound(ctx.img, cap, ctx.tables)
    requires forall a :: a in r.roots ==> Settled(ctx.img, r.roots, a)
    requires ctx.KernelWindow() ==> forall a :: fixed.IsInterior(a) ==> Lies(ctx.img, r.roots, a)
    requires r.ctx == ctx && r.st.included == fixed.included && RootWalks(ctx.img, r.roots, ws)
    requires forall a :: r.st.At(a).exc == if Candidate(ctx.img, cap, a) && a !in fixed.included
                                           then Some(Verdict(cap, ctx.tables, BranchTargets(ws), a))
                                           else fixed.At(a).exc
    ensures Classified(cap, r)
  {
    forall a ensures Sound(ctx, cap, a, r.st.At(a)) { assert Sound(ctx, cap, a, fixed.At(a)); }
    SameOrphans(ctx.img, fixed, r.st, r.roots);
    SeedsStay(ctx, cap, seeded, fixed, r);
    assert ExcludedBy(cap, r, ws);
  }

  lemma SameOrphans(img: Image, st: Seeds, st': Seeds, known: set<int>)
    requires AllOrphans(img, st, known) && st'.included == st.included
    ensures AllOrphans(img, st', known)
  {
    forall a | st'.IsPromoted(a) ensures WasOrphan(img, st', known, a) {
      assert st.IsPromoted(a);
      var past, ws :| OrphanIn(img, st, known, a, past, ws);
      assert OrphanIn(img, st', known, a, past, ws);
    }
  }

  lemma SeedsStay(ctx: Context, cap: Capture, seeded: Seeds, fixed: Seeds, r: Result)
    requires (forall a :: seeded.At(a) == SeedCell(ctx, cap, a)) && forall a :: !seeded.IsPromoted(a)
    requires Grows(seeded, fixed) && r.ctx == ctx && r.st.included == fixed.included
    ensures SeedsKept(cap, r)
  {
    forall a ensures
      var c := SeedCell(r.ctx, cap, a).inc;
      && (c.Some? ==> a in r.st.included)
      && (c.Some? && c.value != DispatchInterior ==> r.st.included[a] == c.value)
      && (r.st.IsInterior(a) || r.st.IsPromoted(a) ==> c == Some(DispatchInterior))
    {
      assert seeded.At(a).inc == SeedCell(ctx, cap, a).inc;
      assert seeded.IsRoot(a) ==> fixed.IsRoot(a);
      assert fixed.IsInterior(a) || fixed.IsPromoted(a) ==> seeded.IsInterior(a);
    }
  }

  /** At the fixed point, whatever a harmless root calls directly is a root. */
  lemma ClassifiedCallsRoots(cap: Capture, r: Result, root: int, w: Walk)
    requires Classified(cap, r) && root in r.roots
    requires HarmlessWalk(r.ctx.img, root, r.ctx.img.Hi()) && RootWalk(r.ctx.img, r.roots, root, w)
    ensures forall t :: t in w.directJals ==> t in r.roots
  {
    forall k | k in r.roots ensures k < r.ctx.img.Hi() { assert Sound(r.ctx, cap, k, r.st.At(k)); }
    JalClosure(r.ctx.img, r.roots, root, w);
  }

  /** So a callable address of the region that any reachable word of a harmless root calls,
      up to the next root, is itself a root. */
  lemma CalleesAreRoots(cap: Capture, r: Result, root: int, c: int, a: int, t: int)
    requires Classified(cap, r) && root in r.roots && IsCap(r.roots, root, r.ctx.img.Hi(), c)
    requires HarmlessWalk(r.ctx.img, root, r.ctx.img.Hi())
    requires a in Flow.Reach(GraphOf(r.ctx.img, root, c)) && r.ctx.img.words[a].op == 0x03
    requires t == JumpTarget(a, r.ctx.img.words[a]) && r.ctx.img.InRegion(t) && Callable(r.ctx.img, t)
    ensures t in r.roots
  {
    var img := r.ctx.img;
    forall k | k in r.roots ensures k < img.Hi() { assert Sound(r.ctx, cap, k, r.st.At(k)); }
    var w := AnyWalk(img, root, c);
    CapShrinks(img, root, img.Hi(), c);
    assert CallsTo(img, a, t);
    CallsReported(img, root, c, w, t);
    assert RootWalk(img, r.roots, root, w);
    ClassifiedCallsRoots(cap, r, root, w);
  }

  // ---- why a candidate is rejected ----

  /** Some assumed root's walk found the address in a jump table. */
  ghost predicate Labelled(img: Image, cap: Capture, labels: map<int, Walk>, a: int) {
    exists k :: k in labels && a in labels[k].tableTargets
  }

  /** Some root's final walk branches to the address, or finds it in a jump table. */
  ghost predicate BranchedTo(walks: map<int, Walk>, a: int) {
    exists k :: k in walks && (a in walks[k].branchTargets || a in walks[k].tableTargets)
  }

  /** The reason of every candidate that was not included, from one set of final walks and
      one set of walks of the assumed roots. */
  lemma WhyExcluded(cap: Capture, r: Result) returns (walks: map<int, Walk>, labels: map<int, Walk>)
    requires Classified(cap, r)
    ensures RootWalks(r.ctx.img, r.roots, walks)
    ensures forall k :: k in labels ==> k in AssumedRoots(r.ctx.img, cap)
    ensures RootWalks(r.ctx.img, AssumedRoots(r.ctx.img, cap), labels)
    ensures forall a :: a in r.ctx.tables <==> Labelled(r.ctx.img, cap, labels, a)
    ensures forall a :: Mentioned(cap, a) && r.ctx.img.InRegion(a) && a !in r.st.included ==>
              && a in r.st.excluded
              && (r.st.excluded[a] == BranchTargetOnly <==> BranchedTo(walks, a) || Labelled(r.ctx.img, cap, labels, a))
              && (r.st.excluded[a] == ObservedPcOnly
                  <==> (&& !BranchedTo(walks, a) && !Labelled(r.ctx.img, cap, labels, a)
                        && (a in cap.executed || a in cap.legacy)))
              && (r.st.excluded[a] == Unknown
                  <==> (&& !BranchedTo(walks, a) && !Labelled(r.ctx.img, cap, labels, a)
                        && a !in cap.executed && a !in cap.legacy))
  {
    walks :| RootWalks(r.ctx.img, r.roots, walks) && ExcludedBy(cap, r, walks);
    labels :| RootWalks(r.ctx.img, PreRoots(r.ctx.img, cap), labels) && r.ctx.tables == TableTargets(labels);
    AssumedAre(r.ctx.img, cap);
    forall a ensures a in BranchTargets(walks) <==> BranchedTo(walks, a) {}
    forall a | Mentioned(cap, a) && r.ctx.img.InRegion(a) && a !in r.st.included
      ensures r.st.At(a).exc == Some(Verdict(cap, r.ctx.tables, BranchTargets(walks), a))
    {
      assert Candidate(r.ctx.img, cap, a);
    }
  }

  /** Everything else that a finished classification rejects is what seeding rejected. */
  lemma RejectedElsewhere(cap: Capture, r: Result, a: int)
    requires Classified(cap, r) && (a in r.st.included || !r.ctx.img.InRegion(a) || !Mentioned(cap, a))
    ensures a in r.st.excluded <==> SeedCell(r.ctx, cap, a).exc.Some?
    ensures a in r.st.excluded ==> SeedCell(r.ctx, cap, a).exc == Some(r.st.excluded[a])
  {
    var ws :| RootWalks(r.ctx.img, r.roots, ws) && ExcludedBy(cap, r, ws);
    assert r.st.At(a).exc == SeedCell(r.ctx, cap, a).exc;
  }

  /** Some seed list of the capture mentions the address. */
  predicate Mentioned(cap: Capture, a: int) {
    a in cap.executed || a in cap.dispatch || a in cap.functions || a in cap.legacy || a in cap.toml
  }

  /** The roots assumed while labels are looked for: declared entries and function pointers
      of the region, and dispatched PCs and old seeds with boundary evidence. */
  function AssumedRoots(img: Image, cap: Capture): set<int> {
    (set a | a in cap.functions && img.InRegion(a)) + (set a | a in cap.toml && img.InRegion(a))
    + (set a | a in cap.dispatch && img.InRegion(a) && Callable(img, a))
    + (set a | a in cap.legacy && img.InRegion(a) && Callable(img, a))
  }

  lemma AssumedAre(img: Image, cap: Capture)
    ensures PreRoots(img, cap) == AssumedRoots(img, cap)
  {
    if PreRoots(img, cap) != AssumedRoots(img, cap) {
      var a := Collections.Differ(PreRoots(img, cap), AssumedRoots(img, cap));
    }
  }

  /** The header entry of the fake executable is the lowest root; it lies in the region. */
  method HeaderEntry(ghost cap: Capture, r: Result) returns (entry: Option<int>)
    requires Classified(cap, r)
    ensures entry.None? <==> r.roots == {}
    ensures entry.Some? ==> entry.value in r.roots && r.ctx.img.InRegion(entry.value)
    ensures entry.Some? ==> forall k :: k in r.roots ==> entry.value <= k
  {
    if r.roots == {} { return None; }
    var a := Least(r.roots);
    assert Sound(r.ctx, cap, a, r.st.At(a));
    entry := Some(a);
  }
}
