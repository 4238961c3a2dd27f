/** A capture whose kernel orphan is promoted and thereby truncates the function before it. */
module Promotion {
  import opened Mips
  import opened Flow
  import opened OverlayWalker
  import opened Classifier
  import Collections

  /** `j 0x10; nop; <orphan> nop; nop; jr $ra; nop`, loaded at 0. */
  ghost function Jumping(): Image { SixWords(Decode(0x0800_0004), Decode(0x03E0_0008), Decode(0)) }

  ghost function SixWords(jump: Instr, ret: Instr, nop: Instr): Image {
    Image(map[0 := jump, 4 := nop, 8 := nop, 12 := nop, 16 := ret, 20 := nop], 0, 24)
  }

  /** Address 8 was dispatched to, and address 0 is a known function. */
  ghost function Dispatched(): Capture { Capture({8}, {0}, {}, {}, {}, true) }

  predicate IsJump(i: Instr) { Classify(0, i) == Jump(16) && Tame(i) && i.raw != 0x03E0_0008 }

  ghost predicate IsNop(i: Instr) { Tame(i) && i.raw != 0x03E0_0008 && forall pc :: Classify(pc, i) == Normal }

  predicate IsReturn(i: Instr) { Tame(i) && Classify(16, i) == Return }

  /** Valid, no call and no prologue. */
  predicate Tame(i: Instr) { IsValid(i) && i.op != 3 && !IsPrologue(i) }

  lemma Codes()
    ensures IsJump(Decode(0x0800_0004)) && IsReturn(Decode(0x03E0_0008)) && IsNop(Decode(0))
  {
    assert Decode(0x0800_0004).op == 2 && Decode(0x0800_0004).target26 == 4;
    assert Decode(0).op == 0 && Decode(0).fn == 0;
  }

  /** The image, through the facts that matter. */
  ghost predicate Example(img: Image) {
    && img.load == 0 && img.size == 24 && (forall a :: a in img.words <==> a in {0, 4, 8, 12, 16, 20})
    && IsJump(img.words[0]) && IsReturn(img.words[16])
    && IsNop(img.words[4]) && IsNop(img.words[8]) && IsNop(img.words[12]) && IsNop(img.words[20])
  }

  lemma JumpingIsExample()
    ensures Example(Jumping())
  {
    Codes();
  }

  lemma OnlyStartCallable(img: Image, a: int)
    requires Example(img)
    ensures Callable(img, a) <==> a == 0
  {}

  lemma NoCalls(img: Image, entry: int, cap: int, w: Walk)
    requires Example(img) && IsWalk(img, entry, cap, w)
    ensures w.directJals == {}
  {
    var o :| Reports(img, entry, cap, o, w);
    forall e ensures JalOf(img, e) == {} {}
    if w.directJals != {} { var t := Collections.Member(w.directJals); }
  }

  /** The function at 0 jumps over address 8. */
  lemma JumpsOver(img: Image, w: Walk)
    requires Example(img) && IsWalk(img, 0, 24, w)
    ensures 8 !in w.visited
  {
    var o :| Reports(img, 0, 24, o, w);
    StartEdges(img);
    TwoNodes(GraphOf(img, 0, 24), o);
  }

  lemma TwoNodes(g: Graph, o: seq<int>)
    requires Order(g, o) && g.root == 0 && 1 !in g.succ && !Slot(g, 0, 8) && !Slot(g, 16, 8)
    requires forall x, y :: x in {0, 16} && Edge(g, x, y) ==> y == 16
    ensures 8 !in Marked(g, Elems(o))
  {
    OrderIsLive(g, o);
    StaysWithin(g, o, 1, {0, 16});
    forall x | x in o ensures x != 8 && !Slot(g, x, 8) {}
  }

  lemma StartEdges(img: Image)
    requires Example(img)
    ensures forall x, y :: x in {0, 16} && Edge(GraphOf(img, 0, 24), x, y) ==> y == 16
    ensures !Slot(GraphOf(img, 0, 24), 0, 8) && !Slot(GraphOf(img, 0, 24), 16, 8) && 1 !in GraphOf(img, 0, 24).succ
  {
    assert SuccOf(img, 0, 24, 16) == {};
    assert forall y :: y in SuccOf(img, 0, 24, 0) ==> y == 16;
  }

  lemma Seeded(ctx: Context)
    requires Example(ctx.img)
    ensures SeedCell(ctx, Dispatched(), 0).inc == Some(FunctionPointerTarget)
    ensures SeedCell(ctx, Dispatched(), 8).inc == Some(DispatchInterior)
  {
    OnlyStartCallable(ctx.img, 0);
    OnlyStartCallable(ctx.img, 8);
    SeedMeaning(ctx, Dispatched(), 0);
    SeedMeaning(ctx, Dispatched(), 8);
  }

  lemma OnlyRoots(r: Result, a: int)
    requires Example(r.ctx.img) && Classified(Dispatched(), r) && a in r.roots
    ensures a == 0 || (a == 8 && r.st.included[8] == DispatchRoot)
  {
    assert Sound(r.ctx, Dispatched(), a, r.st.At(a));
    OnlyStartCallable(r.ctx.img, a);
    if r.st.included[a] == DirectJalTarget {
      var k, c, w :| k in r.roots && IsWalk(r.ctx.img, k, c, w) && a in w.directJals;
      NoCalls(r.ctx.img, k, c, w);
    }
  }

  lemma OrphanIsPromoted(r: Result)
    requires Example(r.ctx.img) && Classified(Dispatched(), r)
    ensures 0 in r.roots && r.st.IsPromoted(8)
  {
    Seeded(r.ctx);
    if r.st.IsInterior(8) {
      var k, w :| k in r.roots && RootWalk(r.ctx.img, r.roots, k, w) && 8 in w.visited;
      OnlyRoots(r, k);
      var c :| IsCap(r.roots, k, r.ctx.img.Hi(), c) && IsWalk(r.ctx.img, k, c, w);
      if c in r.roots { OnlyRoots(r, c); }
      JumpsOver(r.ctx.img, w);
    } else {
      assert 8 in r.roots;
      OnlyRoots(r, 8);
    }
  }

  lemma Truncates(r: Result, w: Walk)
    requires Example(r.ctx.img) && Classified(Dispatched(), r) && RootWalk(r.ctx.img, r.roots, 0, w)
    ensures r.st.IsPromoted(8) && 0 in r.roots && 16 !in w.visited
  {
    OrphanIsPromoted(r);
    assert 8 in r.roots;
    StaysBelow(r.ctx.img, r.roots, 0, 8, w);
  }

  /** A root's walk stays below every higher root. */
  lemma StaysBelow(img: Image, roots: set<int>, root: int, next: int, w: Walk)
    requires RootWalk(img, roots, root, w) && next in roots && root < next
    ensures forall a :: a in w.visited ==> a < next
  {
    var c :| IsCap(roots, root, img.Hi(), c) && IsWalk(img, root, c, w);
    WalkFacts(img, root, c, w);
  }

  lemma ReachesEnd(img: Image)
    requires Example(img)
    ensures 16 in ExactWalk(img, 0, 24).visited
  {
    JumpedOver(img, 0, 24, 8, 16);
  }

  /** Every classification of this capture promotes address 8, and no walk of root 0 up
      to the next root visits 16 any more, which its code reaches. */
  lemma PromotionTruncates(r: Result, w: Walk)
    requires r.ctx.img == Jumping() && Classified(Dispatched(), r) && RootWalk(r.ctx.img, r.roots, 0, w)
    ensures r.st.IsPromoted(8) && 0 in r.roots
    ensures 16 !in w.visited && 16 in ExactWalk(Jumping(), 0, 24).visited
  {
    JumpingIsExample();
    Truncates(r, w);
    ReachesEnd(r.ctx.img);
  }
}
