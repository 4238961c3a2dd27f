/** Worklist walks with delay slots, independent of any instruction set.

    Expanding a node marks its delay slot as visited without expanding it, and a
    visited node is never expanded. The nodes that a walk expands, in the order it
    expands them, form an *expansion order*; every worklist discipline produces a
    complete one. The theory says when all complete orders agree. */
module Flow {
  import Collections

  /** `succ` maps every expandable node to the nodes that expanding it enqueues;
      `delay` maps it to the (at most one) delay slot that expanding it marks. */
  datatype Graph = Graph(root: int, succ: map<int, set<int>>, delay: map<int, set<int>>)

  ghost predicate Valid(g: Graph) { g.succ.Keys == g.delay.Keys }

  function Elems(o: seq<int>): (s: set<int>)
    ensures forall x :: x in s <==> x in o
  {
    set x | x in o
  }

  lemma ElemsSnoc(o: seq<int>, x: int)
    ensures Elems(o + [x]) == Elems(o) + {x} && (o + [x])[..|o|] == o
  {}

  lemma PopBack(work: seq<int>)
    requires work != []
    ensures Elems(work) == Elems(work[..|work| - 1]) + {work[|work| - 1]}
  {
    ElemsSnoc(work[..|work| - 1], work[|work| - 1]);
    assert work == work[..|work| - 1] + [work[|work| - 1]];
  }

  lemma PopFront(work: seq<int>)
    requires work != []
    ensures Elems(work) == Elems(work[1..]) + {work[0]}
  {
    assert work == [work[0]] + work[1..];
  }

  ghost predicate Edge(g: Graph, x: int, y: int) { x in g.succ && y in g.succ[x] }

  ghost predicate Slot(g: Graph, x: int, d: int) { x in g.delay && d in g.delay[x] }

  ghost function Delays(g: Graph, s: set<int>): (r: set<int>)
    ensures forall d :: d in r <==> exists x :: x in s && Slot(g, x, d)
  {
    var r := set x, d | x in s && x in g.delay && d in g.delay[x] :: d;
    assert forall d, x :: x in s && Slot(g, x, d) ==> d in r;
    r
  }

  ghost function Marked(g: Graph, s: set<int>): set<int> { s + Delays(g, s) }

  // ---- reachability, the independent reference ----

  ghost predicate Path(g: Graph, p: seq<int>)
    decreases |p|
  {
    && p != [] && p[|p| - 1] in g.succ
    && if |p| == 1 then p[0] == g.root
       else Path(g, p[..|p| - 1]) && Edge(g, p[|p| - 2], p[|p| - 1])
  }

  ghost predicate PathTo(g: Graph, p: seq<int>, x: int) { Path(g, p) && p[|p| - 1] == x }

  ghost function Reach(g: Graph): set<int> {
    set x | x in g.succ.Keys && exists p :: PathTo(g, p, x)
  }

  /** What a walk should visit: everything reachable, and its delay slots. */
  ghost function Exact(g: Graph): set<int> { Marked(g, Reach(g)) }

  /** No node of the path is the delay slot of an earlier one, so a walk can follow it. */
  ghost predicate Clear(g: Graph, p: seq<int>) { forall i, j :: 0 <= i < j < |p| ==> !Slot(g, p[i], p[j]) }

  /** `t` can be stolen: some clear path avoiding `t` ends in a transfer whose delay slot is `t`. */
  ghost predicate Steals(g: Graph, p: seq<int>, t: int) {
    Path(g, p) && Clear(g, p) && t !in p && Slot(g, p[|p| - 1], t)
  }

  /** No reachable node can be marked as a delay slot before it is expanded. */
  ghost predicate Safe(g: Graph) {
    forall t, p :: t in Reach(g) ==> !Steals(g, p, t)
  }

  /** Marking `t` stands in for expanding it: its owner `b` enqueues what `t` would, and
      `t` has no delay slot. */
  ghost predicate Replaces(g: Graph, b: int, t: int) {
    (forall y :: Edge(g, t, y) && y in g.succ ==> Edge(g, b, y)) && (forall d :: !Slot(g, t, d))
  }

  /** Every reachable node that can be stolen is replaced by its owner. */
  ghost predicate Harmless(g: Graph) {
    forall t, p :: t in Reach(g) && Steals(g, p, t) ==> Replaces(g, p[|p| - 1], t)
  }

  // ---- expansion orders ----

  ghost predicate Enqueued(g: Graph, o: seq<int>, x: int) {
    if o == [] then x == g.root else exists e :: e in o && Edge(g, e, x)
  }

  ghost predicate Order(g: Graph, o: seq<int>)
    decreases |o|
  {
    o == [] ||
    (var n := |o| - 1;
     && Order(g, o[..n])
     && o[n] in g.succ
     && o[n] !in Marked(g, Elems(o[..n]))
     && Enqueued(g, o[..n], o[n]))
  }

  ghost predicate Complete(g: Graph, o: seq<int>) {
    forall x :: x in g.succ && Enqueued(g, o, x) ==> x in Marked(g, Elems(o))
  }

  lemma {:induction false} OrderIsLive(g: Graph, o: seq<int>)
    requires Order(g, o)
    ensures Elems(o) <= g.succ.Keys
    ensures o != [] ==> o[0] == g.root
    decreases |o|
  {
    if o != [] {
      OrderIsLive(g, o[..|o| - 1]);
      assert o == o[..|o| - 1] + [o[|o| - 1]];
    }
  }

  lemma PathSnoc(g: Graph, q: seq<int>, x: int)
    requires Path(g, q) && Edge(g, q[|q| - 1], x) && x in g.succ
    ensures Path(g, q + [x]) && Elems(q + [x]) == Elems(q) + {x}
  {
    ElemsSnoc(q, x);
  }

  lemma ClearSnoc(g: Graph, q: seq<int>, x: int)
    requires Clear(g, q) && x !in Delays(g, Elems(q))
    ensures Clear(g, q + [x])
  {
    assert forall i :: 0 <= i < |q| ==> q[i] in Elems(q);
  }

  /** Everything a walk expands is reachable, along a clear path of expanded nodes. */
  lemma {:induction false} ExpandedIsReached(g: Graph, o: seq<int>, x: int) returns (p: seq<int>)
    requires Order(g, o) && x in o
    ensures PathTo(g, p, x) && Elems(p) <= Elems(o) && Clear(g, p)
    ensures x in Reach(g)
    decreases |o|, 0
  {
    var n := |o| - 1;
    ElemsSnoc(o[..n], o[n]);
    assert o == o[..n] + [o[n]];
    if x in o[..n] {
      p := ExpandedIsReached(g, o[..n], x);
    } else if n == 0 {
      p := [x];
    } else {
      p := LastIsReached(g, o[..n], x);
    }
    assert PathTo(g, p, x);
  }

  lemma {:induction false} LastIsReached(g: Graph, o: seq<int>, x: int) returns (p: seq<int>)
    requires Order(g, o) && o != [] && Enqueued(g, o, x) && x in g.succ && x !in Marked(g, Elems(o))
    ensures PathTo(g, p, x) && Elems(p) <= Elems(o) + {x} && Clear(g, p)
    decreases |o|, 1
  {
    var e :| e in o && Edge(g, e, x);
    var q := ExpandedIsReached(g, o, e);
    PathSnoc(g, q, x);
    ClearSnoc(g, q, x);
    p := q + [x];
  }

  /** Soundness of every walk, whatever the discipline. */
  lemma ExpansionSound(g: Graph, o: seq<int>)
    requires Order(g, o)
    ensures Elems(o) <= Reach(g)
    ensures Marked(g, Elems(o)) <= Exact(g)
  {
    forall x | x in o ensures x in Reach(g) { var _ := ExpandedIsReached(g, o, x); }
  }

  /** A complete order that misses a reachable node dropped some node because it had
      been marked as a delay slot; the expanded owner of that slot steals it. */
  lemma {:induction false} MissedIsStolen(g: Graph, o: seq<int>, p: seq<int>) returns (t: int, q: seq<int>)
    requires Valid(g) && Order(g, o) && Complete(g, o)
    requires Path(g, p) && p[|p| - 1] !in o
    ensures t in Reach(g) && Steals(g, q, t)
    decreases |p|
  {
    var n := |p| - 1;
    var x := p[n];
    OrderIsLive(g, o);
    assert PathTo(g, p, x);
    if n > 0 && p[n - 1] !in o {
      t, q := MissedIsStolen(g, o, p[..n]);
      return;
    }
    assert Enqueued(g, o, x) by {
      if n > 0 { assert p[n - 1] in o; }
    }
    var b :| b in o && Slot(g, b, x);
    t := x;
    q := ExpandedIsReached(g, o, b);
  }

  lemma SafeOrdersAreExact(g: Graph, o: seq<int>)
    requires Valid(g) && Safe(g) && Order(g, o) && Complete(g, o)
    ensures Elems(o) == Reach(g)
    ensures Marked(g, Elems(o)) == Exact(g)
  {
    ExpansionSound(g, o);
    forall x | x in Reach(g) ensures x in o {
      var p :| PathTo(g, p, x);
      if x !in o { var t, q := MissedIsStolen(g, o, p); assert false; }
    }
  }

  // ---- what a walk marks ----

  /** A reachable node that was marked but not expanded is stolen by an expanded owner. */
  lemma MarkedIsStolen(g: Graph, o: seq<int>, x: int) returns (p: seq<int>)
    requires Order(g, o) && x in Marked(g, Elems(o)) && x !in o
    ensures Steals(g, p, x) && p[|p| - 1] in o
  {
    var b :| b in o && Slot(g, b, x);
    p := ExpandedIsReached(g, o, b);
  }

  lemma {:induction false} ReachIsMarked(g: Graph, o: seq<int>, p: seq<int>)
    requires Valid(g) && Harmless(g) && Order(g, o) && Complete(g, o) && Path(g, p)
    ensures p[|p| - 1] in Marked(g, Elems(o))
    decreases |p|
  {
    var n := |p| - 1;
    var x := p[n];
    OrderIsLive(g, o);
    if n > 0 {
      var z := p[n - 1];
      ReachIsMarked(g, o, p[..n]);
      assert PathTo(g, p[..n], z);
      if z !in o {
        var q := MarkedIsStolen(g, o, z);
        assert Edge(g, q[|q| - 1], x);
      }
    }
    assert Enqueued(g, o, x) || x in o;
  }

  /** On a harmless graph every walk marks exactly the reachable nodes and their delay
      slots, and does not expand a reachable node only where it is stolen. */
  lemma HarmlessOrdersAreExact(g: Graph, o: seq<int>)
    requires Valid(g) && Harmless(g) && Order(g, o) && Complete(g, o)
    ensures Marked(g, Elems(o)) == Exact(g)
    ensures forall x :: x in Reach(g) && x !in o ==> exists p :: Steals(g, p, x)
  {
    ExpansionSound(g, o);
    forall x | x in Reach(g)
      ensures x in Marked(g, Elems(o)) && (x !in o ==> exists p :: Steals(g, p, x))
      ensures forall d :: Slot(g, x, d) ==> d in Marked(g, Elems(o))
    {
      var p :| PathTo(g, p, x);
      ReachIsMarked(g, o, p);
      if x !in o { var q := MarkedIsStolen(g, o, x); }
    }
  }

  // ---- the converse: an unsafe graph has a walk that loses a reachable node ----

  lemma {:induction false} Completion(g: Graph, o: seq<int>) returns (c: seq<int>)
    requires Order(g, o)
    ensures Order(g, c) && Complete(g, c) && o <= c
    ensures forall u :: u in Delays(g, Elems(o)) && u !in o ==> u !in c
    decreases g.succ.Keys - Elems(o)
  {
    if Complete(g, o) {
      c := o;
    } else {
      var x :| x in g.succ && Enqueued(g, o, x) && x !in Marked(g, Elems(o));
      ElemsSnoc(o, x);
      c := Completion(g, o + [x]);
    }
  }

  /** A walk can expand exactly the nodes of a clear path. */
  lemma {:induction false} Follow(g: Graph, p: seq<int>) returns (o: seq<int>)
    requires Path(g, p) && Clear(g, p)
    ensures Order(g, o) && Elems(o) == Elems(p)
    decreases |p|
  {
    var n := |p| - 1;
    var x := p[n];
    ElemsSnoc(p[..n], x);
    assert p == p[..n] + [x];
    if n == 0 {
      o := [x];
      RootOrder(g);
      return;
    }
    o := Follow(g, p[..n]);
    assert forall y :: y in o <==> y in p[..n];
    if x in o { return; }
    assert x !in Delays(g, Elems(o));
    assert p[n - 1] in p[..n];
    OrderSnoc(g, o, p[n - 1], x);
    o := o + [x];
  }

  lemma RootOrder(g: Graph)
    requires g.root in g.succ
    ensures Order(g, [g.root])
  {
    var o := [g.root];
    assert o[..0] == [];
    assert Order(g, o[..0]) && Marked(g, Elems(o[..0])) == {} && Enqueued(g, o[..0], g.root);
  }

  lemma OrderSnoc(g: Graph, o: seq<int>, e: int, x: int)
    requires Order(g, o) && e in o && Edge(g, e, x) && x in g.succ && x !in Marked(g, Elems(o))
    ensures Order(g, o + [x]) && Elems(o + [x]) == Elems(o) + {x}
  {
    ElemsSnoc(o, x);
  }

  lemma UnsafeOrderExists(g: Graph) returns (o: seq<int>)
    requires Valid(g) && !Safe(g)
    ensures Order(g, o) && Complete(g, o) && Elems(o) != Reach(g)
  {
    var t, p :| t in Reach(g) && Steals(g, p, t);
    var f := Follow(g, p);
    assert p[|p| - 1] in p && t !in f && t in Delays(g, Elems(f));
    o := Completion(g, f);
    assert t !in o;
  }

  /** Exactly when what a walk expands does not depend on the worklist discipline. */
  lemma ExactIffSafe(g: Graph)
    requires Valid(g)
    ensures Safe(g) <==> (forall o :: Order(g, o) && Complete(g, o) ==> Elems(o) == Reach(g))
  {
    if Safe(g) {
      forall o | Order(g, o) && Complete(g, o) ensures Elems(o) == Reach(g) { SafeOrdersAreExact(g, o); }
    } else {
      var o := UnsafeOrderExists(g);
    }
  }

  // ---- smaller graphs ----

  ghost predicate Sub(g: Graph, h: Graph) {
    && Valid(g) && Valid(h) && g.root == h.root && g.succ.Keys <= h.succ.Keys
    && (forall x, y :: Edge(g, x, y) && y in g.succ ==> Edge(h, x, y))
    && (forall x, d :: Slot(g, x, d) ==> Slot(h, x, d))
    && (forall x, d :: x in g.succ && d in g.succ && Slot(h, x, d) ==> Slot(g, x, d))
  }

  lemma {:induction false} SubPath(g: Graph, h: Graph, p: seq<int>)
    requires Sub(g, h) && Path(g, p)
    ensures Path(h, p) && forall i :: 0 <= i < |p| ==> p[i] in g.succ
    decreases |p|
  {
    if |p| > 1 { SubPath(g, h, p[..|p| - 1]); }
  }

  lemma SubSteals(g: Graph, h: Graph, p: seq<int>, t: int)
    requires Sub(g, h) && Steals(g, p, t)
    ensures Steals(h, p, t)
  {
    SubPath(g, h, p);
  }

  lemma SubReach(g: Graph, h: Graph)
    requires Sub(g, h)
    ensures Reach(g) <= Reach(h) && Exact(g) <= Exact(h)
    ensures Safe(h) ==> Safe(g)
  {
    forall x | x in Reach(g) ensures x in Reach(h) {
      var p :| PathTo(g, p, x);
      SubPath(g, h, p);
      assert PathTo(h, p, x);
    }
    if Safe(h) {
      forall t, p | t in Reach(g) && Steals(g, p, t) ensures false {
        SubSteals(g, h, p, t);
      }
    }
  }

  /** `h` has the edges of `g` among the nodes `s`, and the same delay slots there. */
  ghost predicate Mirrors(g: Graph, h: Graph, s: set<int>) {
    && g.root == h.root && s <= h.succ.Keys
    && (forall x, y :: x in s && y in s && Edge(g, x, y) ==> Edge(h, x, y))
    && (forall x, d :: x in s ==> (Slot(g, x, d) <==> Slot(h, x, d)))
  }

  lemma {:induction false} OrderMirrors(g: Graph, h: Graph, s: set<int>, o: seq<int>)
    requires Mirrors(g, h, s) && Order(g, o) && Elems(o) <= s
    ensures Order(h, o) && Marked(h, Elems(o)) == Marked(g, Elems(o))
    decreases |o|
  {
    if Marked(h, Elems(o)) != Marked(g, Elems(o)) {
      var d := Collections.Differ(Marked(h, Elems(o)), Marked(g, Elems(o)));
    }
    if o != [] {
      var n := |o| - 1;
      ElemsSnoc(o[..n], o[n]);
      assert o == o[..n] + [o[n]];
      OrderMirrors(g, h, s, o[..n]);
      if n > 0 {
        var e :| e in o[..n] && Edge(g, e, o[n]);
        assert Edge(h, e, o[n]);
      }
    }
  }

  // ---- exactly when what a walk marks does not depend on the discipline ----

  /** The nodes that a walk has marked but not expanded. */
  ghost function Stolen(g: Graph, o: seq<int>): set<int> { Delays(g, Elems(o)) - Elems(o) }

  /** The graph in which the nodes `t` cannot be expanded. */
  ghost function Without(g: Graph, t: set<int>): Graph { Graph(g.root, g.succ - t, g.delay - t) }

  lemma WithoutIsSub(g: Graph, t: set<int>)
    requires Valid(g)
    ensures Sub(Without(g, t), g)
  {}

  lemma WithoutMirrors(g: Graph, t: set<int>, o: seq<int>)
    requires Order(g, o) && Elems(o) !! t
    ensures Order(Without(g, t), o) && Marked(Without(g, t), Elems(o)) == Marked(g, Elems(o))
  {
    OrderIsLive(g, o);
    OrderMirrors(g, Without(g, t), Elems(o), o);
  }

  /** Whatever a walk has stolen so far can be lost for good: some completion marks no
      more than the graph without it provides. */
  lemma StolenIsLost(g: Graph, f: seq<int>) returns (o: seq<int>)
    requires Valid(g) && Order(g, f)
    ensures Order(g, o) && Complete(g, o) && Marked(g, Elems(o)) <= Exact(Without(g, Stolen(g, f)))
  {
    o := Completion(g, f);
    WithoutMirrors(g, Stolen(g, f), o);
    ExpansionSound(Without(g, Stolen(g, f)), o);
  }

  /** A single clear steal loses whatever the graph without `t` no longer provides. */
  lemma StealLoses(g: Graph, p: seq<int>, t: int) returns (o: seq<int>)
    requires Valid(g) && Steals(g, p, t)
    ensures Order(g, o) && Complete(g, o) && Marked(g, Elems(o)) <= Exact(Without(g, {t}))
  {
    var f := Follow(g, p);
    assert p[|p| - 1] in p && t !in f && t in Stolen(g, f);
    o := Completion(g, f);
    WithoutMirrors(g, {t}, o);
    ExpansionSound(Without(g, {t}), o);
  }

  lemma {:induction false} KeptIsExpanded(g: Graph, o: seq<int>, p: seq<int>)
    requires Valid(g) && Order(g, o) && Complete(g, o) && Path(Without(g, Stolen(g, o)), p)
    ensures p[|p| - 1] in o
    decreases |p|
  {
    var n := |p| - 1;
    OrderIsLive(g, o);
    if n > 0 { KeptIsExpanded(g, o, p[..n]); }
    assert Enqueued(g, o, p[n]) || p[n] in o;
  }

  /** A finished walk marks what the graph without its stolen nodes provides. */
  lemma MarksTheRest(g: Graph, o: seq<int>)
    requires Valid(g) && Order(g, o) && Complete(g, o)
    ensures Marked(g, Elems(o)) == Exact(Without(g, Stolen(g, o)))
  {
    var h := Without(g, Stolen(g, o));
    WithoutMirrors(g, Stolen(g, o), o);
    ExpansionSound(h, o);
    forall x | x in Reach(h) ensures x in o {
      var p :| PathTo(h, p, x);
      KeptIsExpanded(g, o, p);
    }
    forall x | x in Exact(h) ensures x in Marked(h, Elems(o)) {}
  }

  ghost predicate StolenIsSpare(g: Graph) { forall f :: Order(g, f) ==> Exact(Without(g, Stolen(g, f))) == Exact(g) }

  /** Every finished walk marks exactly the reachable nodes and their delay slots if and
      only if nothing that a walk, finished or not, can steal is needed to provide them. */
  lemma MarksExactIff(g: Graph)
    requires Valid(g)
    ensures StolenIsSpare(g) <==> (forall o :: Order(g, o) && Complete(g, o) ==> Marked(g, Elems(o)) == Exact(g))
  {
    if StolenIsSpare(g) {
      forall o | Order(g, o) && Complete(g, o) ensures Marked(g, Elems(o)) == Exact(g) { MarksTheRest(g, o); }
    } else {
      var f :| Order(g, f) && Exact(Without(g, Stolen(g, f))) != Exact(g);
      var o := StolenIsLost(g, f);
      WithoutIsSub(g, Stolen(g, f));
      SubReach(Without(g, Stolen(g, f)), g);
    }
  }

  /** If every finished walk is exact, then no single node that can be stolen along a path
      is needed: the graph without it provides the same. This can be read off the paths. */
  lemma ExactNeedsNoStolen(g: Graph, p: seq<int>, t: int)
    requires Valid(g) && Steals(g, p, t)
    requires forall o :: Order(g, o) && Complete(g, o) ==> Marked(g, Elems(o)) == Exact(g)
    ensures Exact(Without(g, {t})) == Exact(g)
  {
    var o := StealLoses(g, p, t);
    WithoutIsSub(g, {t});
    SubReach(Without(g, {t}), g);
    SameIfWithin(Exact(Without(g, {t})), Exact(g));
  }

  lemma SameIfWithin(a: set<int>, b: set<int>)
    requires a <= b && b <= a
    ensures a == b
  {
    if a != b { var x := Collections.Differ(a, b); }
  }

  // ---- the loop invariant that a worklist walker keeps ----

  /** `o` is what has been expanded, and every enqueued node is visited or still queued. */
  ghost predicate Walking(g: Graph, o: seq<int>, work: seq<int>) {
    && Order(g, o)
    && (forall x :: x in work ==> x in g.succ ==> Enqueued(g, o, x) || x in Marked(g, Elems(o)))
    && (forall x :: x in g.succ && Enqueued(g, o, x) ==> x in Marked(g, Elems(o)) || x in work)
  }

  /** Discarding a popped node that is visited or not expandable. */
  lemma WalkSkip(g: Graph, o: seq<int>, work: seq<int>, rest: seq<int>, pc: int)
    requires Walking(g, o, work)
    requires Elems(work) == Elems(rest) + {pc}
    requires pc in g.succ ==> pc in Marked(g, Elems(o))
    ensures Walking(g, o, rest)
  {
  }

  /** Expanding a popped node and enqueuing its successors. */
  lemma WalkExpand(g: Graph, o: seq<int>, work: seq<int>, rest: seq<int>, pushed: seq<int>, pc: int)
    requires Walking(g, o, work) && pc in g.succ && pc in g.delay && pc !in Marked(g, Elems(o))
    requires Elems(work) == Elems(rest) + {pc}
    requires Elems(pushed) == Elems(rest) + g.succ[pc]
    ensures Walking(g, o + [pc], pushed)
    ensures Marked(g, Elems(o + [pc])) == Marked(g, Elems(o)) + {pc} + g.delay[pc]
  {
    var o' := o + [pc];
    ElemsSnoc(o, pc);
    OrderIsLive(g, o);
    assert Enqueued(g, o, pc);
    forall x | x in pushed && x in g.succ ensures Enqueued(g, o', x) || x in Marked(g, Elems(o')) {
      if x in g.succ[pc] { assert Enqueued(g, o', x); }
      else if o == [] { assert x == g.root; }
    }
    forall x | x in g.succ && Enqueued(g, o', x) ensures x in Marked(g, Elems(o')) || x in pushed {
      var e :| e in o' && Edge(g, e, x);
      if e != pc { assert e in o; }
    }
  }
}
