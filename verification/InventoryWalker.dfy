/** The instruction-inventory walker: the same worklist walk in LIFO order, over its
    own classification of control transfers, and its agreement with the overlay walker. */
module InventoryWalker {
  import opened Mips
  import opened Flow
  import JumpTable
  import OverlayWalker
  import Collections

  datatype Kind = CondBranch(target: int) | Goto(target: int) | Indirect | Calls | Inline

  function KindOf(pc: int, i: Instr): Kind {
    if i.op in {0x01, 0x04, 0x05, 0x06, 0x07} then CondBranch(BranchTarget(pc, i))
    else if i.op == 0x02 then Goto(JumpTarget(pc, i))
    else if i.op == 0x03 then Calls
    else if i.op == 0x00 && i.fn == 0x08 then Indirect
    else if i.op == 0x00 && i.fn == 0x09 then Calls
    else if i.op in {0x11, 0x12} && i.rs == 0x08 then CondBranch(BranchTarget(pc, i))
    else Inline // syscall, break and ordinary instructions fall through
  }

  predicate Visitable(img: Image, entry: int, cap: int, a: int) {
    a in img.words && entry <= a < cap && a < img.Hi()
  }

  function SuccOf(img: Image, entry: int, cap: int, pc: int): set<int>
    requires pc in img.words
  {
    match KindOf(pc, img.words[pc])
    case CondBranch(t) => if entry <= t < cap then {pc + 8, t} else {pc + 8}
    case Goto(t) => if entry <= t < cap then {t} else {}
    case Indirect => {}
    case Calls => {pc + 8}
    case Inline => {pc + 4}
  }

  function DelayOf(img: Image, entry: int, cap: int, pc: int): set<int>
    requires pc in img.words
  {
    if !KindOf(pc, img.words[pc]).Inline? && Visitable(img, entry, cap, pc + 4) then {pc + 4} else {}
  }

  ghost function GraphOf(img: Image, entry: int, cap: int): (g: Graph)
    ensures Flow.Valid(g)
  {
    Graph(entry,
          map a | a in img.words && Visitable(img, entry, cap, a) :: SuccOf(img, entry, cap, a),
          map a | a in img.words && Visitable(img, entry, cap, a) :: DelayOf(img, entry, cap, a))
  }

  method Pushes(img: Image, entry: int, cap: int, pc: int) returns (q: seq<int>)
    requires pc in img.words
    ensures Elems(q) == SuccOf(img, entry, cap, pc)
  {
    match KindOf(pc, img.words[pc])
    case CondBranch(t) => q := if entry <= t < cap then [pc + 8, t] else [pc + 8];
    case Goto(t) => q := if entry <= t < cap then [t] else [];
    case Indirect => q := [];
    case Calls => q := [pc + 8];
    case Inline => q := [pc + 4];
  }

  /** The last byte of the highest visited instruction. */
  method LastByte(visited: set<int>, entry: int) returns (end: int)
    ensures if visited == {} then end == entry + 3
            else end - 3 in visited && forall a :: a in visited ==> a <= end - 3
  {
    var q := Collections.Ordered(visited);
    if q == [] {
      if visited != {} { var x := Collections.Member(visited); }
      return entry + 3;
    }
    end := q[0] + 3;
    for i := 1 to |q|
      invariant end - 3 in q && forall j :: 0 <= j < i ==> q[j] <= end - 3
    {
      if q[i] > end - 3 { end := q[i] + 3; }
    }
  }

  /** One expansion: the instruction and, for a transfer, its delay slot. */
  function Record(img: Image, entry: int, cap: int, visited: map<int, Instr>, pc: int): (r: map<int, Instr>)
    requires pc in img.words
    ensures r.Keys == visited.Keys + {pc} + DelayOf(img, entry, cap, pc)
    ensures Recorded(img, entry, cap, visited) && Visitable(img, entry, cap, pc) ==> Recorded(img, entry, cap, r)
  {
    var v := visited[pc := img.words[pc]];
    if DelayOf(img, entry, cap, pc) != {} && pc + 4 !in v then v[pc + 4 := img.words[pc + 4]] else v
  }

  /** `visited` is what some complete expansion order marks. */
  ghost predicate IsVisit(img: Image, entry: int, cap: int, visited: set<int>) {
    exists o :: Visits(GraphOf(img, entry, cap), o, visited)
  }

  ghost predicate Visits(g: Graph, o: seq<int>, visited: set<int>) {
    Order(g, o) && Complete(g, o) && visited == Marked(g, Elems(o))
  }

  lemma VisitFacts(img: Image, entry: int, cap: int, visited: set<int>)
    requires IsVisit(img, entry, cap, visited)
    ensures visited <= Exact(GraphOf(img, entry, cap))
    ensures Harmless(GraphOf(img, entry, cap)) ==> visited == Exact(GraphOf(img, entry, cap))
  {
    var g := GraphOf(img, entry, cap);
    var o :| Visits(g, o, visited);
    ExpansionSound(g, o);
    if Harmless(g) { HarmlessOrdersAreExact(g, o); }
  }

  ghost predicate Recorded(img: Image, entry: int, cap: int, visited: map<int, Instr>) {
    forall a :: a in visited ==> Visitable(img, entry, cap, a) && visited[a] == img.words[a]
  }

  ghost predicate InProgress(img: Image, entry: int, cap: int, o: seq<int>, work: seq<int>, visited: set<int>) {
    Walking(GraphOf(img, entry, cap), o, work) && visited == Marked(GraphOf(img, entry, cap), Elems(o))
  }

  /** Expanding `pc`, popped from the back of the worklist. */
  method Expand(img: Image, entry: int, cap: int, ghost o: seq<int>, work: seq<int>, visited: map<int, Instr>)
    returns (work': seq<int>, visited': map<int, Instr>)
    requires work != [] && InProgress(img, entry, cap, o, work, visited.Keys)
    requires Visitable(img, entry, cap, work[|work| - 1]) && work[|work| - 1] !in visited
    ensures InProgress(img, entry, cap, o + [work[|work| - 1]], work', visited'.Keys)
    ensures Recorded(img, entry, cap, visited) ==> Recorded(img, entry, cap, visited')
  {
    ghost var g := GraphOf(img, entry, cap);
    var n := |work| - 1;
    var pc, rest := work[n], work[..n];
    PopBack(work);
    var pushes := Pushes(img, entry, cap, pc);
    work' := rest + pushes;
    assert Elems(work') == Elems(rest) + g.succ[pc];
    WalkExpand(g, o, work, rest, work', pc);
    visited' := Record(img, entry, cap, visited, pc);
  }

  method Visit(img: Image, entry: int, cap: int) returns (visited: map<int, Instr>)
    ensures Recorded(img, entry, cap, visited)
    ensures IsVisit(img, entry, cap, visited.Keys)
  {
    ghost var g := GraphOf(img, entry, cap);
    ghost var o: seq<int> := [];
    var work := [entry];
    visited := map[];
    assert Marked(g, Elems(o)) == {};
    while work != []
      invariant InProgress(img, entry, cap, o, work, visited.Keys)
      invariant Recorded(img, entry, cap, visited)
      decreases g.succ.Keys - Elems(o), |work|
    {
      var n := |work| - 1;
      var pc := work[n];
      if pc in visited || !Visitable(img, entry, cap, pc) {
        PopBack(work);
        WalkSkip(g, o, work, work[..n], pc);
        work := work[..n];
      } else {
        ElemsSnoc(o, pc);
        work, visited := Expand(img, entry, cap, o, work, visited);
        o := o + [pc];
      }
    }
    assert Visits(g, o, visited.Keys);
  }

  /** The visited instructions, keyed by address, and the last byte of the highest one. */
  method WalkFunction(img: Image, entry: int, cap: int) returns (visited: map<int, Instr>, end: int)
    ensures Recorded(img, entry, cap, visited)
    ensures visited.Keys <= Exact(GraphOf(img, entry, cap))
    ensures Harmless(GraphOf(img, entry, cap)) ==> visited.Keys == Exact(GraphOf(img, entry, cap))
    ensures if visited.Keys == {} then end == entry + 3
            else end - 3 in visited && forall a :: a in visited ==> a <= end - 3
  {
    visited := Visit(img, entry, cap);
    VisitFacts(img, entry, cap, visited.Keys);
    end := LastByte(visited.Keys, entry);
  }

  // ---- agreement with the overlay walker ----

  /** An instruction that both tools classify alike, that is not an indirect jump into a
      recovered table, and whose delay slot, if it lies in the function, was captured. */
  predicate Alike(img: Image, entry: int, cap: int, a: int)
    requires a in img.words
  {
    var i := img.words[a];
    && i.op !in {0x14, 0x15, 0x16, 0x17} && !(i.op in {0x11, 0x12} && i.rs == 0x08)
    && (Classify(a, i).JumpReg? ==> JumpTable.Targets(img, entry, cap, a, i.rs) == {})
    && (JumpTable.InFunction(img, entry, cap, a + 4) ==> a + 4 in img.words)
  }

  /** An aligned entry in the region, all of whose reachable code is classified alike. */
  ghost predicate Common(img: Image, entry: int, cap: int) {
    && entry % 4 == 0 && img.load <= entry
    && forall a :: a in Reach(OverlayWalker.GraphOf(img, entry, cap)) ==> Alike(img, entry, cap, a)
  }

  lemma SameEdges(img: Image, entry: int, cap: int, x: int, y: int)
    requires img.load <= entry && OverlayWalker.Expandable(img, entry, cap, x) && Alike(img, entry, cap, x)
    ensures y in img.words ==>
              (y in OverlayWalker.SuccOf(img, entry, cap, x)
               <==> y in SuccOf(img, entry, cap, x) && Visitable(img, entry, cap, y))
    ensures y in OverlayWalker.DelayOf(img, entry, cap, x) <==> y in DelayOf(img, entry, cap, x)
  {
    var i := img.words[x];
    assert (x + 4) % 4 == 0 && (x + 8) % 4 == 0;
    if i.op == 2 { assert JumpTarget(x, i) % 4 == 0; }
    assert BranchTarget(x, i) % 4 == 0;
  }

  /** The same facts, as edges and slots of the two graphs. */
  lemma SameNode(img: Image, entry: int, cap: int, x: int, y: int)
    requires img.load <= entry && OverlayWalker.Expandable(img, entry, cap, x) && Alike(img, entry, cap, x)
    ensures var g, h := GraphOf(img, entry, cap), OverlayWalker.GraphOf(img, entry, cap);
      x in g.succ && (Slot(g, x, y) <==> Slot(h, x, y))
      && (Edge(g, x, y) && y in g.succ <==> Edge(h, x, y) && y in h.succ)
  {
    SameEdges(img, entry, cap, x, y);
    if y in OverlayWalker.SuccOf(img, entry, cap, x) { assert JumpTable.InFunction(img, entry, cap, y); }
  }

  /** The two graphs have the same paths. */
  lemma {:induction false} SamePaths(img: Image, entry: int, cap: int, p: seq<int>)
    requires Common(img, entry, cap)
    ensures Path(GraphOf(img, entry, cap), p) <==> Path(OverlayWalker.GraphOf(img, entry, cap), p)
    decreases |p|
  {
    var g, h := GraphOf(img, entry, cap), OverlayWalker.GraphOf(img, entry, cap);
    if |p| > 1 {
      var n := |p| - 1;
      SamePaths(img, entry, cap, p[..n]);
      if Path(h, p[..n]) {
        assert PathTo(h, p[..n], p[n - 1]);
        SameNode(img, entry, cap, p[n - 1], p[n]);
      }
    }
  }

  lemma {:induction false} PathNodes(g: Graph, p: seq<int>)
    requires Path(g, p)
    ensures forall i :: 0 <= i < |p| ==> p[i] in Reach(g)
    decreases |p|
  {
    var n := |p| - 1;
    assert PathTo(g, p, p[n]);
    if n > 0 { PathNodes(g, p[..n]); }
  }

  lemma SameReach(img: Image, entry: int, cap: int)
    requires Common(img, entry, cap)
    ensures Reach(GraphOf(img, entry, cap)) == Reach(OverlayWalker.GraphOf(img, entry, cap))
  {
    var g, h := GraphOf(img, entry, cap), OverlayWalker.GraphOf(img, entry, cap);
    forall x | x in Reach(g) ensures x in Reach(h) {
      var p :| PathTo(g, p, x);
      SamePaths(img, entry, cap, p);
      assert PathTo(h, p, x);
    }
    forall x | x in Reach(h) ensures x in Reach(g) {
      var p :| PathTo(h, p, x);
      SamePaths(img, entry, cap, p);
      assert PathTo(g, p, x);
    }
  }

  lemma SameSlot(img: Image, entry: int, cap: int, x: int, d: int)
    requires Common(img, entry, cap) && x in Reach(OverlayWalker.GraphOf(img, entry, cap))
    ensures Slot(GraphOf(img, entry, cap), x, d) <==> Slot(OverlayWalker.GraphOf(img, entry, cap), x, d)
  {
    SameNode(img, entry, cap, x, d);
  }

  lemma SameSteals(img: Image, entry: int, cap: int, p: seq<int>, t: int)
    requires Common(img, entry, cap)
    ensures Steals(GraphOf(img, entry, cap), p, t) <==> Steals(OverlayWalker.GraphOf(img, entry, cap), p, t)
  {
    var g, h := GraphOf(img, entry, cap), OverlayWalker.GraphOf(img, entry, cap);
    SamePaths(img, entry, cap, p);
    if Path(h, p) {
      PathNodes(h, p);
      forall i, d | 0 <= i < |p| ensures Slot(g, p[i], d) <==> Slot(h, p[i], d) { SameSlot(img, entry, cap, p[i], d); }
    }
  }

  lemma SameReplaces(img: Image, entry: int, cap: int, b: int, t: int)
    requires Common(img, entry, cap)
    requires b in Reach(OverlayWalker.GraphOf(img, entry, cap)) && t in Reach(OverlayWalker.GraphOf(img, entry, cap))
    ensures Replaces(GraphOf(img, entry, cap), b, t) <==> Replaces(OverlayWalker.GraphOf(img, entry, cap), b, t)
  {
    var g, h := GraphOf(img, entry, cap), OverlayWalker.GraphOf(img, entry, cap);
    forall y ensures Edge(g, t, y) && y in g.succ <==> Edge(h, t, y) && y in h.succ { SameNode(img, entry, cap, t, y); }
    forall y ensures Edge(g, b, y) && y in g.succ <==> Edge(h, b, y) && y in h.succ { SameNode(img, entry, cap, b, y); }
    forall d ensures Slot(g, t, d) <==> Slot(h, t, d) { SameNode(img, entry, cap, t, d); }
  }

  /** On common code the FIFO and the LIFO walker agree: same reachable code, same exact
      visited set, and harmless for the one exactly when harmless for the other. */
  lemma WalkersAgree(img: Image, entry: int, cap: int)
    requires Common(img, entry, cap)
    ensures Reach(GraphOf(img, entry, cap)) == Reach(OverlayWalker.GraphOf(img, entry, cap))
    ensures Exact(GraphOf(img, entry, cap)) == Exact(OverlayWalker.GraphOf(img, entry, cap))
    ensures Safe(GraphOf(img, entry, cap)) <==> Safe(OverlayWalker.GraphOf(img, entry, cap))
    ensures Harmless(GraphOf(img, entry, cap)) <==> Harmless(OverlayWalker.GraphOf(img, entry, cap))
  {
    var g, h := GraphOf(img, entry, cap), OverlayWalker.GraphOf(img, entry, cap);
    SameReach(img, entry, cap);
    forall x, d | x in Reach(h) ensures Slot(g, x, d) <==> Slot(h, x, d) { SameSlot(img, entry, cap, x, d); }
    forall t, p ensures Steals(g, p, t) <==> Steals(h, p, t) { SameSteals(img, entry, cap, p, t); }
    forall t, p | t in Reach(h) && Steals(h, p, t) ensures Replaces(g, p[|p| - 1], t) <==> Replaces(h, p[|p| - 1], t) {
      assert PathTo(h, p, p[|p| - 1]);
      SameReplaces(img, entry, cap, p[|p| - 1], t);
    }
    SameDelays(g, h);
  }

  lemma SameDelays(g: Graph, h: Graph)
    requires Reach(g) == Reach(h) && forall x, d :: x in Reach(h) ==> (Slot(g, x, d) <==> Slot(h, x, d))
    ensures Exact(g) == Exact(h)
  {
    if Exact(g) != Exact(h) { var d := Collections.Differ(Exact(g), Exact(h)); }
  }
}
