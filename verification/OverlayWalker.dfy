/** The delay-slot-aware overlay walker: a FIFO worklist over a captured image. */
module OverlayWalker {
  import opened Mips
  import opened Flow
  import opened JumpTable
  import Collections

  // ---- the edges that the walker follows ----

  function Keep(img: Image, entry: int, cap: int, s: set<int>): set<int> {
    set a | a in s && InFunction(img, entry, cap, a)
  }

  /** What expanding `pc` enqueues. */
  function SuccOf(img: Image, entry: int, cap: int, pc: int): set<int>
    requires pc in img.words
  {
    match Classify(pc, img.words[pc])
    case Normal => Keep(img, entry, cap, {pc + 4})
    case Branch(t) => Keep(img, entry, cap, {pc + 8, t})
    case Jump(t) => Keep(img, entry, cap, {t})
    case Call(_) => Keep(img, entry, cap, {pc + 8})
    case CallReg => Keep(img, entry, cap, {pc + 8})
    case JumpReg(rs) => Targets(img, entry, cap, pc, rs)
    case Return => {}
  }

  /** The delay slot that expanding `pc` marks. */
  function DelayOf(img: Image, entry: int, cap: int, pc: int): set<int>
    requires pc in img.words
  {
    if Classify(pc, img.words[pc]).Normal? then {} else Keep(img, entry, cap, {pc + 4})
  }

  /** The callable in-region target of a direct call at `pc`. */
  function JalOf(img: Image, pc: int): set<int> {
    if pc in img.words && Classify(pc, img.words[pc]).Call? then
      var t := Classify(pc, img.words[pc]).target;
      if img.InRegion(t) && Callable(img, t) then {t} else {}
    else {}
  }

  function BranchOf(img: Image, entry: int, cap: int, pc: int): set<int> {
    if pc in img.words && !Classify(pc, img.words[pc]).Normal? then SuccOf(img, entry, cap, pc) else {}
  }

  function TableOf(img: Image, entry: int, cap: int, pc: int): set<int> {
    if pc in img.words && Classify(pc, img.words[pc]).JumpReg? then SuccOf(img, entry, cap, pc) else {}
  }

  predicate Expandable(img: Image, entry: int, cap: int, a: int) { a in img.words && InFunction(img, entry, cap, a) }

  ghost function GraphOf(img: Image, entry: int, cap: int): (g: Graph)
    ensures Flow.Valid(g)
  {
    Graph(entry,
          map a | a in img.words && InFunction(img, entry, cap, a) :: SuccOf(img, entry, cap, a),
          map a | a in img.words && InFunction(img, entry, cap, a) :: DelayOf(img, entry, cap, a))
  }

  // ---- what a walk reports ----

  datatype Walk = Walk(visited: set<int>, directJals: set<int>, branchTargets: set<int>, tableTargets: set<int>)

  ghost function Jals(img: Image, s: set<int>): (r: set<int>)
    ensures forall t :: t in r <==> exists e :: e in s && t in JalOf(img, e)
  {
    set e, t | e in s && t in JalOf(img, e) :: t
  }

  ghost function Branches(img: Image, entry: int, cap: int, s: set<int>): (r: set<int>)
    ensures forall t :: t in r <==> exists e :: e in s && t in BranchOf(img, entry, cap, e)
  {
    set e, t | e in s && t in BranchOf(img, entry, cap, e) :: t
  }

  ghost function Tables(img: Image, entry: int, cap: int, s: set<int>): (r: set<int>)
    ensures forall t :: t in r <==> exists e :: e in s && t in TableOf(img, entry, cap, e)
  {
    set e, t | e in s && t in TableOf(img, entry, cap, e) :: t
  }

  /** The report of a walk that expanded exactly the nodes `s`. */
  ghost function Report(img: Image, entry: int, cap: int, s: set<int>): Walk {
    Walk(Marked(GraphOf(img, entry, cap), s), Jals(img, s), Branches(img, entry, cap, s), Tables(img, entry, cap, s))
  }

  /** `w` is the report of some complete expansion order. */
  ghost predicate IsWalk(img: Image, entry: int, cap: int, w: Walk) {
    exists o :: Reports(img, entry, cap, o, w)
  }

  ghost predicate Reports(img: Image, entry: int, cap: int, o: seq<int>, w: Walk) {
    var g := GraphOf(img, entry, cap);
    Order(g, o) && Complete(g, o) && w == Report(img, entry, cap, Elems(o))
  }

  /** Marking a reachable instruction as a delay slot before it is expanded loses nothing:
      it is an ordinary instruction, and its owner goes on to the word after it (a branch
      or a call does), unless the function ends there. */
  ghost predicate HarmlessWalk(img: Image, entry: int, cap: int) {
    var g := GraphOf(img, entry, cap);
    forall t, p :: t in Reach(g) && Steals(g, p, t) ==>
      Ordinary(img, t) && (Expandable(img, entry, cap, t + 4) ==> Edge(g, p[|p| - 1], t + 4))
  }

  predicate Ordinary(img: Image, a: int) { a in img.words && Classify(a, img.words[a]).Normal? }

  lemma SafeIsHarmless(img: Image, entry: int, cap: int)
    requires Safe(GraphOf(img, entry, cap))
    ensures HarmlessWalk(img, entry, cap)
  {}

  lemma HarmlessGraph(img: Image, entry: int, cap: int)
    requires HarmlessWalk(img, entry, cap)
    ensures Harmless(GraphOf(img, entry, cap))
  {
    var g := GraphOf(img, entry, cap);
    forall t, p | t in Reach(g) && Steals(g, p, t) ensures Replaces(g, p[|p| - 1], t) {
      assert Ordinary(img, t);
      assert forall y :: Edge(g, t, y) && y in g.succ ==> y == t + 4 && Expandable(img, entry, cap, y);
    }
  }

  ghost function ExactWalk(img: Image, entry: int, cap: int): Walk {
    Report(img, entry, cap, Reach(GraphOf(img, entry, cap)))
  }

  // ---- the walker ----

  /** The addresses that expanding `pc` appends to the worklist, in order. */
  method Pushes(img: Image, entry: int, cap: int, pc: int) returns (q: seq<int>)
    requires pc in img.words
    ensures Elems(q) == SuccOf(img, entry, cap, pc)
  {
    q := [];
    match Classify(pc, img.words[pc])
    case Normal => if InFunction(img, entry, cap, pc + 4) { q := [pc + 4]; }
    case Branch(t) =>
      if InFunction(img, entry, cap, pc + 8) { q := [pc + 8]; }
      if InFunction(img, entry, cap, t) { q := q + [t]; }
    case Jump(t) => if InFunction(img, entry, cap, t) { q := [t]; }
    case Call(_) => if InFunction(img, entry, cap, pc + 8) { q := [pc + 8]; }
    case CallReg => if InFunction(img, entry, cap, pc + 8) { q := [pc + 8]; }
    case JumpReg(rs) =>
      var targets := FindTargets(img, entry, cap, pc, rs);
      q := Collections.Ordered(targets);
    case Return =>
  }

  lemma ReportSnoc(img: Image, entry: int, cap: int, s: set<int>, pc: int)
    ensures Jals(img, s + {pc}) == Jals(img, s) + JalOf(img, pc)
    ensures Branches(img, entry, cap, s + {pc}) == Branches(img, entry, cap, s) + BranchOf(img, entry, cap, pc)
    ensures Tables(img, entry, cap, s + {pc}) == Tables(img, entry, cap, s) + TableOf(img, entry, cap, pc)
  {}

  /** What holds each time round the worklist loop. */
  ghost predicate InProgress(img: Image, entry: int, cap: int, o: seq<int>, work: seq<int>, w: Walk) {
    Walking(GraphOf(img, entry, cap), o, work) && w == Report(img, entry, cap, Elems(o))
  }

  /** Expanding `pc`, popped from the front of the worklist. */
  method Expand(img: Image, entry: int, cap: int, ghost o: seq<int>, work: seq<int>, w: Walk)
    returns (work': seq<int>, w': Walk)
    requires work != [] && InProgress(img, entry, cap, o, work, w)
    requires Expandable(img, entry, cap, work[0]) && work[0] !in w.visited
    ensures InProgress(img, entry, cap, o + [work[0]], work', w')
  {
    ghost var g := GraphOf(img, entry, cap);
    var pc, rest := work[0], work[1..];
    PopFront(work);
    var pushes := Pushes(img, entry, cap, pc);
    work' := rest + pushes;
    assert Elems(work') == Elems(rest) + g.succ[pc];
    WalkExpand(g, o, work, rest, work', pc);
    ReportSnoc(img, entry, cap, Elems(o), pc);
    ElemsSnoc(o, pc);
    w' := Walk(w.visited + {pc} + DelayOf(img, entry, cap, pc),
               w.directJals + JalOf(img, pc),
               w.branchTargets + BranchOf(img, entry, cap, pc),
               w.tableTargets + TableOf(img, entry, cap, pc));
  }

  method WalkFunction(img: Image, entry: int, cap: int) returns (w: Walk)
    ensures IsWalk(img, entry, cap, w)
    ensures forall a :: a in w.visited ==> InFunction(img, entry, cap, a)
    ensures w.visited <= Exact(GraphOf(img, entry, cap))
    ensures Harmless(GraphOf(img, entry, cap)) ==> w.visited == Exact(GraphOf(img, entry, cap))
    ensures HarmlessWalk(img, entry, cap) ==> w == ExactWalk(img, entry, cap)
  {
    ghost var g := GraphOf(img, entry, cap);
    ghost var o: seq<int> := [];
    var work := [entry];
    w := Walk({}, {}, {}, {});
    assert Marked(g, Elems(o)) == {};
    while work != []
      invariant InProgress(img, entry, cap, o, work, w)
      decreases g.succ.Keys - Elems(o), |work|
    {
      var pc := work[0];
      if pc in w.visited || !InFunction(img, entry, cap, pc) || pc !in img.words {
        PopFront(work);
        WalkSkip(g, o, work, work[1..], pc);
        work := work[1..];
      } else {
        ElemsSnoc(o, pc);
        work, w := Expand(img, entry, cap, o, work, w);
        o := o + [pc];
      }
    }
    assert Reports(img, entry, cap, o, w);
    WalkFacts(img, entry, cap, w);
  }

  /** What every walk satisfies, whatever order it expands in. */
  lemma WalkFacts(img: Image, entry: int, cap: int, w: Walk)
    requires IsWalk(img, entry, cap, w)
    ensures forall a :: a in w.visited ==> InFunction(img, entry, cap, a)
    ensures w.visited <= Exact(GraphOf(img, entry, cap))
    ensures Harmless(GraphOf(img, entry, cap)) ==> w.visited == Exact(GraphOf(img, entry, cap))
    ensures HarmlessWalk(img, entry, cap) ==> w == ExactWalk(img, entry, cap)
    ensures forall t :: t in w.directJals ==> img.InRegion(t) && Callable(img, t)
  {
    var g := GraphOf(img, entry, cap);
    var o :| Reports(img, entry, cap, o, w);
    ExpansionSound(g, o);
    OrderIsLive(g, o);
    if Harmless(g) { HarmlessOrdersAreExact(g, o); }
    if HarmlessWalk(img, entry, cap) { HarmlessReport(img, entry, cap, o); }
    MarkedInside(img, entry, cap, Elems(o));
  }

  /** On harmless code the whole report is that of the reachable set: what is not
      expanded is ordinary and would report nothing. */
  lemma HarmlessReport(img: Image, entry: int, cap: int, o: seq<int>)
    requires HarmlessWalk(img, entry, cap)
    requires Order(GraphOf(img, entry, cap), o) && Complete(GraphOf(img, entry, cap), o)
    ensures Report(img, entry, cap, Elems(o)) == ExactWalk(img, entry, cap)
  {
    var g, s := GraphOf(img, entry, cap), Elems(o);
    HarmlessGraph(img, entry, cap);
    HarmlessOrdersAreExact(g, o);
    ExpansionSound(g, o);
    SameReport(img, entry, cap, s, Reach(g));
  }

  lemma SameReport(img: Image, entry: int, cap: int, s: set<int>, t: set<int>)
    requires s <= t && forall x :: x in t && x !in s ==> Ordinary(img, x)
    ensures Jals(img, s) == Jals(img, t)
    ensures Branches(img, entry, cap, s) == Branches(img, entry, cap, t)
    ensures Tables(img, entry, cap, s) == Tables(img, entry, cap, t)
  {
    forall e | e in t && e !in s
      ensures JalOf(img, e) == {} && BranchOf(img, entry, cap, e) == {} && TableOf(img, entry, cap, e) == {}
    {}
    if Jals(img, s) != Jals(img, t) { var x := Collections.Differ(Jals(img, s), Jals(img, t)); }
    if Branches(img, entry, cap, s) != Branches(img, entry, cap, t) {
      var x := Collections.Differ(Branches(img, entry, cap, s), Branches(img, entry, cap, t));
    }
    if Tables(img, entry, cap, s) != Tables(img, entry, cap, t) {
      var x := Collections.Differ(Tables(img, entry, cap, s), Tables(img, entry, cap, t));
    }
  }

  /** What walks visit is exact, in every order, if and only if nothing that a walk can
      steal is needed to provide it. */
  lemma VisitedExactIff(img: Image, entry: int, cap: int)
    ensures StolenIsSpare(GraphOf(img, entry, cap))
       <==> (forall w :: IsWalk(img, entry, cap, w) ==> w.visited == ExactWalk(img, entry, cap).visited)
  {
    var g := GraphOf(img, entry, cap);
    MarksExactIff(g);
    if StolenIsSpare(g) {
      forall w | IsWalk(img, entry, cap, w) ensures w.visited == Exact(g) { var o :| Reports(img, entry, cap, o, w); }
    } else {
      var o :| Order(g, o) && Complete(g, o) && Marked(g, Elems(o)) != Exact(g);
      var w := Report(img, entry, cap, Elems(o));
      assert Reports(img, entry, cap, o, w);
    }
  }

  /** Wherever an instruction can be stolen, some walk visits no more than the code
      without that instruction provides. */
  lemma StealLosesVisits(img: Image, entry: int, cap: int, p: seq<int>, t: int) returns (w: Walk)
    requires Steals(GraphOf(img, entry, cap), p, t)
    ensures IsWalk(img, entry, cap, w) && w.visited <= Exact(Without(GraphOf(img, entry, cap), {t}))
  {
    var o := StealLoses(GraphOf(img, entry, cap), p, t);
    w := Report(img, entry, cap, Elems(o));
    assert Reports(img, entry, cap, o, w);
  }

  /** So a code whose walks are all exact does without any instruction that can be stolen. */
  lemma ExactNeedsNoStolenWord(img: Image, entry: int, cap: int, p: seq<int>, t: int)
    requires forall w :: IsWalk(img, entry, cap, w) ==> w.visited == ExactWalk(img, entry, cap).visited
    requires Steals(GraphOf(img, entry, cap), p, t)
    ensures Exact(Without(GraphOf(img, entry, cap), {t})) == Exact(GraphOf(img, entry, cap))
  {
    var g := GraphOf(img, entry, cap);
    VisitedExactIff(img, entry, cap);
    MarksExactIff(g);
    ExactNeedsNoStolen(g, p, t);
  }

  lemma MarkedInside(img: Image, entry: int, cap: int, s: set<int>)
    requires s <= GraphOf(img, entry, cap).succ.Keys
    ensures forall a :: a in Marked(GraphOf(img, entry, cap), s) ==> InFunction(img, entry, cap, a)
    ensures forall t :: t in Jals(img, s) ==> img.InRegion(t) && Callable(img, t)
  {
    var g := GraphOf(img, entry, cap);
    forall x, d | x in s && Slot(g, x, d) ensures InFunction(img, entry, cap, d) {}
    forall x, t | x in s && t in JalOf(img, x) ensures img.InRegion(t) && Callable(img, t) {}
  }

  // ---- what is followed and reported, word by word ----

  /** The words behind which control returns or falls through: branches and calls. */
  predicate ComesBack(i: Instr) {
    i.op in {0x01, 0x03, 0x04, 0x05, 0x06, 0x07, 0x14, 0x15, 0x16, 0x17} || (i.op == 0 && i.fn == 0x09)
  }

  predicate IsRegisterJump(i: Instr) { i.op == 0 && i.fn == 0x08 && i.rs != 31 }

  /** What the walk follows from the word at `a` to `y`, both in the function. */
  predicate Follows(img: Image, entry: int, cap: int, a: int, y: int)
    requires a in img.words
  {
    var i := img.words[a];
    || (ComesBack(i) && y == a + 8)
    || (i.op in {0x01, 0x04, 0x05, 0x06, 0x07, 0x14, 0x15, 0x16, 0x17} && y == BranchTarget(a, i))
    || (i.op == 0x02 && y == JumpTarget(a, i))
    || (IsRegisterJump(i) && y in Targets(img, entry, cap, a, i.rs))
  }

  /** Edges and slots of the walk, off the words: ordinary words go to the next one; branches,
      jumps and calls as listed; each transfer, returns included, has the next word as slot. */
  lemma EdgeIff(img: Image, entry: int, cap: int, a: int, y: int)
    ensures Edge(GraphOf(img, entry, cap), a, y)
       <==> (&& a in img.words && InFunction(img, entry, cap, a) && InFunction(img, entry, cap, y)
             && (if IsControlFlow(img.words[a]) then Follows(img, entry, cap, a, y) else y == a + 4))
    ensures Slot(GraphOf(img, entry, cap), a, y)
       <==> (&& a in img.words && InFunction(img, entry, cap, a) && InFunction(img, entry, cap, y)
             && IsControlFlow(img.words[a]) && y == a + 4)
  {}

  /** The word at `a` calls `t` directly, and `t` is a callable address of the region. */
  predicate CallsTo(img: Image, a: int, t: int) {
    a in img.words && img.words[a].op == 0x03 && t == JumpTarget(a, img.words[a]) && img.InRegion(t) && Callable(img, t)
  }

  /** Whatever a walk visits or reports as a target is an aligned address of the captured region,
      from the entry up to the cap. */
  lemma StaysInside(img: Image, entry: int, cap: int, w: Walk, a: int)
    requires IsWalk(img, entry, cap, w) && (a in w.visited || a in w.branchTargets || a in w.tableTargets)
    ensures img.load <= a < img.load + img.size && entry <= a < cap && a % 4 == 0
  {
    if a in w.visited {
      WalkFacts(img, entry, cap, w);
    } else {
      var o :| Reports(img, entry, cap, o, w);
      TargetInside(img, entry, cap, Elems(o), a);
    }
  }

  lemma TargetInside(img: Image, entry: int, cap: int, s: set<int>, a: int)
    requires a in Branches(img, entry, cap, s) || a in Tables(img, entry, cap, s)
    ensures InFunction(img, entry, cap, a)
  {
    var e :| e in s && (a in BranchOf(img, entry, cap, e) || a in TableOf(img, entry, cap, e));
    SuccInside(img, entry, cap, e, a);
  }

  lemma SuccInside(img: Image, entry: int, cap: int, e: int, a: int)
    requires a in BranchOf(img, entry, cap, e) || a in TableOf(img, entry, cap, e)
    ensures InFunction(img, entry, cap, a)
  {}

  lemma CallOf(img: Image, a: int, t: int)
    ensures t in JalOf(img, a) <==> CallsTo(img, a, t)
  {}

  lemma CallsOf(img: Image, s: set<int>, t: int)
    ensures t in Jals(img, s) <==> exists a :: a in s && CallsTo(img, a, t)
  {
    if a :| a in s && t in JalOf(img, a) { CallOf(img, a, t); }
    if a :| a in s && CallsTo(img, a, t) { CallOf(img, a, t); }
  }

  /** The direct calls of a walk of harmless code are exactly the callable targets, in the
      region, of the reachable call words. */
  lemma CallsReported(img: Image, entry: int, cap: int, w: Walk, t: int)
    requires HarmlessWalk(img, entry, cap) && IsWalk(img, entry, cap, w)
    ensures t in w.directJals <==> exists a :: a in Reach(GraphOf(img, entry, cap)) && CallsTo(img, a, t)
  {
    WalkFacts(img, entry, cap, w);
    CallsOf(img, Reach(GraphOf(img, entry, cap)), t);
  }

  /** The transfer at the reachable `a` leads to `t`, in the function. */
  ghost predicate LeadsTo(img: Image, entry: int, cap: int, a: int, t: int) {
    && a in Reach(GraphOf(img, entry, cap)) && a in img.words && InFunction(img, entry, cap, t)
    && Follows(img, entry, cap, a, t)
  }

  /** The reachable register jump at `a` has a table with `t` in it. */
  ghost predicate TableLeadsTo(img: Image, entry: int, cap: int, a: int, t: int) {
    && a in Reach(GraphOf(img, entry, cap)) && a in img.words && IsRegisterJump(img.words[a])
    && t in Targets(img, entry, cap, a, img.words[a].rs)
  }

  /** The branch and table targets of a walk of harmless code are exactly what its reachable
      transfers lead to. */
  lemma TargetsReported(img: Image, entry: int, cap: int, w: Walk, t: int)
    requires HarmlessWalk(img, entry, cap) && IsWalk(img, entry, cap, w)
    ensures t in w.branchTargets <==> exists a :: LeadsTo(img, entry, cap, a, t)
    ensures t in w.tableTargets <==> exists a :: TableLeadsTo(img, entry, cap, a, t)
  {
    WalkFacts(img, entry, cap, w);
    BranchesOf(img, entry, cap, t);
    TablesOf(img, entry, cap, t);
  }

  lemma BranchesOf(img: Image, entry: int, cap: int, t: int)
    ensures (&& t in Branches(img, entry, cap, Reach(GraphOf(img, entry, cap))))
       <==> exists a :: LeadsTo(img, entry, cap, a, t)
  {
    var r := Reach(GraphOf(img, entry, cap));
    if a :| a in r && t in BranchOf(img, entry, cap, a) {
      TargetsOf(img, entry, cap, a, t);
      assert LeadsTo(img, entry, cap, a, t);
    }
    if a :| LeadsTo(img, entry, cap, a, t) { TargetsOf(img, entry, cap, a, t); }
  }

  lemma TablesOf(img: Image, entry: int, cap: int, t: int)
    ensures (&& t in Tables(img, entry, cap, Reach(GraphOf(img, entry, cap))))
       <==> exists a :: TableLeadsTo(img, entry, cap, a, t)
  {
    var r := Reach(GraphOf(img, entry, cap));
    if a :| a in r && t in TableOf(img, entry, cap, a) {
      TargetsOf(img, entry, cap, a, t);
      assert TableLeadsTo(img, entry, cap, a, t);
    }
    if a :| TableLeadsTo(img, entry, cap, a, t) { TargetsOf(img, entry, cap, a, t); }
  }

  lemma TargetsOf(img: Image, entry: int, cap: int, a: int, t: int)
    requires Expandable(img, entry, cap, a)
    ensures t in BranchOf(img, entry, cap, a) <==> InFunction(img, entry, cap, t) && Follows(img, entry, cap, a, t)
    ensures (&& t in TableOf(img, entry, cap, a))
       <==> IsRegisterJump(img.words[a]) && t in Targets(img, entry, cap, a, img.words[a].rs)
  {}

  // ---- lowering the cap ----

  /** The edges below `cap'` do not depend on the cap. */
  lemma CapEdges(img: Image, entry: int, cap: int, cap': int, a: int)
    requires cap' <= cap && Expandable(img, entry, cap', a)
    ensures forall t :: t in SuccOf(img, entry, cap', a) <==> t in SuccOf(img, entry, cap, a) && t < cap'
    ensures forall t :: t in DelayOf(img, entry, cap', a) <==> t in DelayOf(img, entry, cap, a) && t < cap'
  {
    if Classify(a, img.words[a]).JumpReg? {
      TargetsShrink(img, entry, cap, cap', a, Classify(a, img.words[a]).rs);
    }
  }

  lemma CapSub(img: Image, entry: int, cap: int, cap': int)
    requires cap' <= cap
    ensures Sub(GraphOf(img, entry, cap'), GraphOf(img, entry, cap))
  {
    var g, h := GraphOf(img, entry, cap'), GraphOf(img, entry, cap);
    forall x, y | Edge(g, x, y) ensures Edge(h, x, y) { CapEdges(img, entry, cap, cap', x); }
    forall x, d | Slot(g, x, d) ensures Slot(h, x, d) { CapEdges(img, entry, cap, cap', x); }
    forall x, d | x in g.succ && d in g.succ && Slot(h, x, d)
      ensures Slot(g, x, d)
    {
      CapEdges(img, entry, cap, cap', x);
    }
  }

  lemma CapKeepsHarmless(img: Image, entry: int, cap: int, cap': int)
    requires cap' <= cap && HarmlessWalk(img, entry, cap)
    ensures HarmlessWalk(img, entry, cap')
  {
    var g, h := GraphOf(img, entry, cap'), GraphOf(img, entry, cap);
    CapSub(img, entry, cap, cap');
    SubReach(g, h);
    forall t, p | t in Reach(g) && Steals(g, p, t)
      ensures Ordinary(img, t) && (Expandable(img, entry, cap', t + 4) ==> Edge(g, p[|p| - 1], t + 4))
    {
      SubSteals(g, h, p, t);
      CapEdges(img, entry, cap, cap', p[|p| - 1]);
    }
  }

  /** Shrinking the cap never adds anything to an exact walk, and keeps it exact. */
  lemma CapShrinks(img: Image, entry: int, cap: int, cap': int)
    requires cap' <= cap && HarmlessWalk(img, entry, cap)
    ensures HarmlessWalk(img, entry, cap')
    ensures ExactWalk(img, entry, cap').visited <= ExactWalk(img, entry, cap).visited
    ensures ExactWalk(img, entry, cap').directJals <= ExactWalk(img, entry, cap).directJals
  {
    CapSub(img, entry, cap, cap');
    SubReach(GraphOf(img, entry, cap'), GraphOf(img, entry, cap));
    CapKeepsHarmless(img, entry, cap, cap');
  }

  /** Nodes whose marks stay below `cap'` look the same under both caps. */
  lemma CapMirrors(img: Image, entry: int, cap: int, cap': int, s: set<int>)
    requires cap' <= cap && s <= GraphOf(img, entry, cap).succ.Keys
    requires forall a :: a in Marked(GraphOf(img, entry, cap), s) ==> a < cap'
    ensures Mirrors(GraphOf(img, entry, cap), GraphOf(img, entry, cap'), s)
  {
    var g, h := GraphOf(img, entry, cap), GraphOf(img, entry, cap');
    forall x | x in s ensures Expandable(img, entry, cap', x) { assert x in Marked(g, s); }
    forall x, y | x in s && y in s && Edge(g, x, y) ensures Edge(h, x, y) { CapEdges(img, entry, cap, cap', x); }
    forall x, d | x in s ensures Slot(g, x, d) <==> Slot(h, x, d) {
      CapEdges(img, entry, cap, cap', x);
      if Slot(g, x, d) { assert d in Marked(g, s); }
    }
  }

  /** Promoting an address above everything a root visits does not truncate that root. */
  lemma PromotionKeeps(img: Image, entry: int, cap: int, cap': int, w: Walk) returns (w': Walk)
    requires cap' <= cap && IsWalk(img, entry, cap, w)
    requires forall a :: a in w.visited ==> a < cap'
    ensures IsWalk(img, entry, cap', w') && w'.visited == w.visited && w'.directJals == w.directJals
  {
    var g, h := GraphOf(img, entry, cap), GraphOf(img, entry, cap');
    var o :| Reports(img, entry, cap, o, w);
    OrderIsLive(g, o);
    CapMirrors(img, entry, cap, cap', Elems(o));
    OrderMirrors(g, h, Elems(o), o);
    forall x | x in h.succ && Enqueued(h, o, x) ensures x in Marked(h, Elems(o)) {
      if o != [] {
        var e :| e in o && Edge(h, e, x);
        CapEdges(img, entry, cap, cap', e);
        assert Edge(g, e, x);
      }
      assert Enqueued(g, o, x);
    }
    w' := Report(img, entry, cap', Elems(o));
    assert Reports(img, entry, cap', o, w');
  }

  /** On a harmless root a lower cap truncates nothing exactly when nothing visited lies above it. */
  lemma TruncatesIff(img: Image, entry: int, cap: int, cap': int)
    requires cap' <= cap && HarmlessWalk(img, entry, cap)
    ensures ExactWalk(img, entry, cap').visited == ExactWalk(img, entry, cap).visited
       <==> (forall a :: a in ExactWalk(img, entry, cap).visited ==> a < cap')
  {
    CapShrinks(img, entry, cap, cap');
    var w := AnyWalk(img, entry, cap);
    var small := AnyWalk(img, entry, cap');
    WalkFacts(img, entry, cap, w);
    WalkFacts(img, entry, cap', small);
    if forall a :: a in w.visited ==> a < cap' {
      var w' := PromotionKeeps(img, entry, cap, cap', w);
      WalkFacts(img, entry, cap', w');
    }
  }

  /** Every function has a walk. */
  lemma AnyWalk(img: Image, entry: int, cap: int) returns (w: Walk)
    ensures IsWalk(img, entry, cap, w)
  {
    var o := Completion(GraphOf(img, entry, cap), []);
    w := Report(img, entry, cap, Elems(o));
    assert Reports(img, entry, cap, o, w);
  }

  // ---- where the provisos fail ----

  /** A root that starts by jumping over `a` to `t` reaches `t`, but no longer once `a` is a root. */
  lemma JumpedOver(img: Image, entry: int, cap: int, a: int, t: int)
    requires Expandable(img, entry, cap, entry) && Expandable(img, entry, cap, t) && entry < a <= t
    requires Classify(entry, img.words[entry]) == Jump(t)
    ensures t in ExactWalk(img, entry, cap).visited && t !in ExactWalk(img, entry, a).visited
  {
    var g := GraphOf(img, entry, cap);
    assert Edge(g, entry, t);
    assert [entry, t][..1] == [entry] && Path(g, [entry]);
    assert PathTo(g, [entry, t], t);
    MarkedInside(img, entry, a, Reach(GraphOf(img, entry, a)));
  }

  /** A branch to its own delay slot: that address is reachable, but every walk takes
      it for a delay slot and never expands it. */
  lemma SelfSlot(img: Image, entry: int, cap: int, o: seq<int>)
    requires Expandable(img, entry, cap, entry) && Expandable(img, entry, cap, entry + 4)
    requires Classify(entry, img.words[entry]) == Branch(entry + 4)
    requires Order(GraphOf(img, entry, cap), o)
    ensures entry + 4 in Reach(GraphOf(img, entry, cap)) && entry + 4 !in o
  {
    var g, t := GraphOf(img, entry, cap), entry + 4;
    assert Slot(g, entry, t) && Edge(g, entry, t);
    assert Path(g, [entry]) && [entry, t][..1] == [entry];
    assert PathTo(g, [entry, t], t);
    NeverExpanded(g, o, t);
  }

  /** A node other than the root that is the root's delay slot is never expanded. */
  lemma {:induction false} NeverExpanded(g: Graph, o: seq<int>, t: int)
    requires Order(g, o) && t != g.root && Slot(g, g.root, t)
    ensures t !in o
    decreases |o|
  {
    if o != [] {
      var n := |o| - 1;
      NeverExpanded(g, o[..n], t);
      assert o == o[..n] + [o[n]];
      if n > 0 { OrderIsLive(g, o[..n]); assert g.root in o[..n]; }
    }
  }

  /** Where a walk stays, if it never expands `t`: in any set that is closed under the
      other edges. */
  lemma {:induction false} StaysWithin(g: Graph, o: seq<int>, t: int, s: set<int>)
    requires Order(g, o) && t !in o && g.root in s
    requires forall x, y :: x in s && Edge(g, x, y) && y in g.succ && y != t ==> y in s
    ensures forall x :: x in o ==> x in s
    decreases |o|
  {
    if o != [] {
      var n := |o| - 1;
      assert o == o[..n] + [o[n]];
      StaysWithin(g, o[..n], t, s);
    }
  }

  /** A root that branches to its own delay slot, where a jump leads on to `t`, while the
      word after the slot returns. */
  ghost predicate JumpInSlot(img: Image, entry: int, cap: int, t: int) {
    && Expandable(img, entry, cap, entry) && Classify(entry, img.words[entry]) == Branch(entry + 4)
    && Expandable(img, entry, cap, entry + 4) && Classify(entry + 4, img.words[entry + 4]) == Jump(t)
    && Expandable(img, entry, cap, entry + 8) && Classify(entry + 8, img.words[entry + 8]) == Return
    && Expandable(img, entry, cap, t) && t !in {entry, entry + 4, entry + 8, entry + 12}
  }

  /** Then `t` is reachable, and every walk loses it. */
  lemma JumpInSlotIsLost(img: Image, entry: int, cap: int, t: int, w: Walk)
    requires JumpInSlot(img, entry, cap, t) && IsWalk(img, entry, cap, w)
    ensures t in ExactWalk(img, entry, cap).visited && t !in w.visited
  {
    var g, slot := GraphOf(img, entry, cap), entry + 4;
    var o :| Reports(img, entry, cap, o, w);
    SelfSlot(img, entry, cap, o);
    assert Edge(g, slot, t);
    var p :| PathTo(g, p, slot);
    PathSnoc(g, p, t);
    assert PathTo(g, p + [t], t);
    StaysAtStart(img, entry, cap, t, o);
  }

  lemma StaysAtStart(img: Image, entry: int, cap: int, t: int, o: seq<int>)
    requires JumpInSlot(img, entry, cap, t) && Order(GraphOf(img, entry, cap), o) && entry + 4 !in o
    ensures t !in Marked(GraphOf(img, entry, cap), Elems(o))
  {
    var g := GraphOf(img, entry, cap);
    StartEdges(img, entry, cap, t);
    StaysWithin(g, o, entry + 4, {entry, entry + 8});
    forall x | x in o ensures x != t && !Slot(g, x, t) {}
  }

  lemma StartEdges(img: Image, entry: int, cap: int, t: int)
    requires JumpInSlot(img, entry, cap, t)
    ensures forall x, y :: x in {entry, entry + 8} && Edge(GraphOf(img, entry, cap), x, y) ==>
              x == entry && y in {entry + 4, entry + 8}
    ensures !Slot(GraphOf(img, entry, cap), entry, t) && !Slot(GraphOf(img, entry, cap), entry + 8, t)
  {
    assert SuccOf(img, entry, cap, entry + 8) == {};
    assert forall y :: y in SuccOf(img, entry, cap, entry) ==> y in {entry + 4, entry + 8};
  }

  /** `beq $0, $0, .+4; j 0x10; jr $ra; nop; jr $ra; nop`. */
  ghost function LosingImage(): Image {
    FourWords(Decode(0x1000_0000), Decode(0x0800_0004), Decode(0x03E0_0008), Decode(0))
  }

  ghost function FourWords(branch: Instr, jump: Instr, ret: Instr, nop: Instr): Image {
    Image(map[0 := branch, 4 := jump, 8 := ret, 12 := nop, 16 := ret, 20 := nop], 0, 24)
  }

  lemma LosingCodes()
    ensures Classify(0, Decode(0x1000_0000)) == Branch(4)
    ensures Classify(4, Decode(0x0800_0004)) == Jump(16)
    ensures Classify(8, Decode(0x03E0_0008)) == Return
  {
    assert Decode(0x1000_0000).op == 4 && Decode(0x1000_0000).uimm == 0;
    assert Decode(0x0800_0004).op == 2 && Decode(0x0800_0004).target26 == 4;
  }

  lemma LosingWords(branch: Instr, jump: Instr, ret: Instr, nop: Instr)
    requires Classify(0, branch) == Branch(4) && Classify(4, jump) == Jump(16) && Classify(8, ret) == Return
    ensures JumpInSlot(FourWords(branch, jump, ret, nop), 0, 24, 16)
  {
    var img := FourWords(branch, jump, ret, nop);
    assert img.words[0] == branch && img.words[4] == jump && img.words[8] == ret && 16 in img.words;
  }

  /** There address 16 is reachable, and no walk visits it. */
  lemma ReachableCanBeLost(w: Walk)
    requires IsWalk(LosingImage(), 0, 24, w)
    ensures 16 in ExactWalk(LosingImage(), 0, 24).visited && 16 !in w.visited
  {
    LosingCodes();
    LosingWords(Decode(0x1000_0000), Decode(0x0800_0004), Decode(0x03E0_0008), Decode(0));
    JumpInSlotIsLost(LosingImage(), 0, 24, 16, w);
  }
}
