/** The verdict of the code-generation audit: what a CLEAN status says about the generated
    C, its dispatch table and its manifests. */
module Audit {
  import opened Normalise

  /** A half-open address range. */
  datatype Span = Span(lo: nat, hi: nat) {
    predicate Has(a: int) { lo <= a < hi }
  }

  datatype Region = Region(romStart: nat, romEnd: nat, base: nat) {
    predicate Has(a: int) { base <= a < base + (romEnd - romStart) }
  }

  datatype Config = Config(mask: nat, remaps: seq<Remap>, regions: seq<Region>, expected: set<nat>) {
    function Norm(a: nat): nat { Normal(a, mask, remaps) }

    predicate InCode(a: nat) { exists i :: 0 <= i < |regions| && regions[i].Has(a) }
  }

  /** What the audit reads from the generated C, the dispatch table and the range manifest. */
  datatype Code = Code(unknown: nat, unsupported: nat, buggy: nat, names: set<string>, defs: set<nat>, table: set<nat>,
                       literals: set<nat>, calls: set<string>, tails: set<nat>,
                       entries: set<nat>, ranges: seq<Span>, hasRanges: bool)

  /** The data-range and dynamic-target manifests. */
  datatype Manifests = Manifests(data: seq<Span>, dataError: bool, dynamic: set<nat>, dynamicError: bool) {
    predicate InData(a: nat) { exists i :: 0 <= i < |data| && data[i].Has(a) }
  }

  // ---- what CLEAN should mean ----

  /** Some address of `s` is an alias of `a`. */
  ghost predicate Has(cfg: Config, s: set<nat>, a: nat) { exists t :: t in s && cfg.Norm(t) == cfg.Norm(a) }

  ghost predicate AllIn(cfg: Config, s: set<nat>, t: set<nat>) {
    forall a {:trigger Has(cfg, t, a)} :: a in s ==> Has(cfg, t, a)
  }

  ghost predicate Dispatched(cfg: Config, c: Code, a: nat) { Has(cfg, c.table, a) }

  ghost predicate Dynamic(cfg: Config, m: Manifests, a: nat) { Has(cfg, m.dynamic, a) }

  /** The overlap test of the audit. */
  predicate Meets(a: Span, b: Span) { a.lo < b.hi && b.lo < a.hi }

  ghost predicate LiteralsServed(cfg: Config, c: Code, m: Manifests) {
    forall a :: a in c.literals && cfg.InCode(a) ==> Dispatched(cfg, c, a) || Dynamic(cfg, m, a)
  }

  /** Tail targets may also be known misses. */
  ghost predicate TailsServed(cfg: Config, c: Code, m: Manifests) {
    forall a :: a in c.tails && cfg.InCode(a) ==>
      Dispatched(cfg, c, a) || Dynamic(cfg, m, a) || cfg.Norm(a) in cfg.expected
  }

  ghost predicate Apart(code: seq<Span>, data: seq<Span>) {
    forall i, j :: 0 <= i < |code| && 0 <= j < |data| ==> !Meets(code[i], data[j])
  }

  ghost predicate DynamicInstalled(cfg: Config, c: Code, m: Manifests) {
    (forall a :: a in c.table ==> !m.InData(a))
    && (forall a :: a in m.dynamic ==> m.InData(a) && !Dispatched(cfg, c, a))
  }

  ghost predicate Clean(cfg: Config, c: Code, m: Manifests) {
    && c.unknown == 0 && c.unsupported == 0 && c.buggy == 0 && !m.dataError && !m.dynamicError && c.hasRanges
    && (forall n :: n in c.calls ==> n in c.names)
    && AllIn(cfg, c.defs, c.table) && LiteralsServed(cfg, c, m) && TailsServed(cfg, c, m)
    && AllIn(cfg, c.defs, c.entries) && AllIn(cfg, c.entries, c.defs)
    && Apart(c.ranges, m.data) && DynamicInstalled(cfg, c, m)
  }

  // ---- the audit ----

  function Norms(cfg: Config, s: set<nat>): (r: set<nat>)
    ensures forall x :: x in r <==> exists a :: a in s && cfg.Norm(a) == x
  {
    set a | a in s :: cfg.Norm(a)
  }

  method InCodeRegion(cfg: Config, a: nat) returns (b: bool)
    ensures b == cfg.InCode(a)
  {
    for i := 0 to |cfg.regions|
      invariant forall j :: 0 <= j < i ==> !cfg.regions[j].Has(a)
    {
      if cfg.regions[i].Has(a) { return true; }
    }
    b := false;
  }

  /** The pairs of code and data ranges that meet, in order. */
  ghost predicate Meeting(code: seq<Span>, data: seq<Span>, i: int, j: int) {
    0 <= i < |code| && 0 <= j < |data| && Meets(code[i], data[j])
  }

  /** The code and data ranges that the audit finds overlapping. */
  method Overlaps(code: seq<Span>, data: seq<Span>) returns (found: seq<(Span, Span)>)
    ensures forall s, t :: (s, t) in found <==> exists i, j :: Meeting(code, data, i, j) && s == code[i] && t == data[j]
    ensures found == [] <==> Apart(code, data)
  {
    found := [];
    for i := 0 to |code|
      invariant forall s, t :: (s, t) in found
                  <==> exists k, j :: Meeting(code, data, k, j) && k < i && s == code[k] && t == data[j]
      invariant found == [] <==> forall k, j :: Meeting(code, data, k, j) ==> k >= i
    {
      for n := 0 to |data|
        invariant forall s, t :: (s, t) in found
                    <==> exists k, j :: (&& Meeting(code, data, k, j) && (k < i || (k == i && j < n))
                                         && s == code[k] && t == data[j])
        invariant found == [] <==> forall k, j :: Meeting(code, data, k, j) ==> k > i || (k == i && j >= n)
      {
        if Meets(code[i], data[n]) {
          assert Meeting(code, data, i, n);
          found := found + [(code[i], data[n])];
        }
      }
    }
    forall i, j | 0 <= i < |code| && 0 <= j < |data| ensures Meeting(code, data, i, j) <==> Meets(code[i], data[j]) {}
  }

  lemma Empty<T>(s: set<T>)
    ensures |s| == 0 <==> forall x :: x !in s
  {
    if |s| == 0 { assert s == {}; } else if s != {} { var x :| x in s; }
  }

  /** `x` is the normalised form of an address of `s` that `t` lacks. */
  ghost predicate Lacks(cfg: Config, s: set<nat>, t: set<nat>, x: nat) {
    exists a :: a in s && cfg.Norm(a) == x && !Has(cfg, t, a)
  }

  /** The normalised addresses of `s` that `t` lacks. */
  method Missing(cfg: Config, s: set<nat>, t: set<nat>) returns (missing: set<nat>)
    ensures forall x :: x in missing <==> Lacks(cfg, s, t, x)
    ensures |missing| == 0 <==> AllIn(cfg, s, t)
  {
    missing := Norms(cfg, s) - Norms(cfg, t);
    Empty(missing);
    forall a | a in s ensures cfg.Norm(a) in missing <==> !Has(cfg, t, a) {}
  }

  /** `x` is the normalised form of a literal in a code region that is neither dispatched
      nor dynamic. */
  ghost predicate Unserved(cfg: Config, c: Code, m: Manifests, x: nat) {
    exists a :: a in c.literals && cfg.InCode(a) && cfg.Norm(a) == x && !Dispatched(cfg, c, a) && !Dynamic(cfg, m, a)
  }

  method MissingLiterals(cfg: Config, c: Code, m: Manifests) returns (missing: set<nat>)
    ensures forall x :: x in missing <==> Unserved(cfg, c, m, x)
    ensures |missing| == 0 <==> LiteralsServed(cfg, c, m)
  {
    var table, dynamic := Norms(cfg, c.table), Norms(cfg, m.dynamic);
    var raw := set a | a in c.literals && cfg.Norm(a) !in table && cfg.InCode(a) && cfg.Norm(a) !in dynamic;
    missing := Norms(cfg, raw);
    Empty(missing);
    forall a | a in c.literals ensures a in raw <==> cfg.InCode(a) && !Dispatched(cfg, c, a) && !Dynamic(cfg, m, a) {}
    forall a | a in raw ensures cfg.Norm(a) in missing {}
  }

  /** `x` is the normalised form of a tail target in a code region that is not dispatched,
      not dynamic and not expected. */
  ghost predicate Unexpected(cfg: Config, c: Code, m: Manifests, x: nat) {
    exists a :: (&& a in c.tails && cfg.InCode(a) && cfg.Norm(a) == x && !Dispatched(cfg, c, a)
                 && !Dynamic(cfg, m, a) && x !in cfg.expected)
  }

  method UnexpectedTails(cfg: Config, c: Code, m: Manifests) returns (missing: set<nat>)
    ensures forall x :: x in missing <==> Unexpected(cfg, c, m, x)
    ensures |missing| == 0 <==> TailsServed(cfg, c, m)
  {
    var table, dynamic := Norms(cfg, c.table), Norms(cfg, m.dynamic);
    var raw := set a | a in c.tails && cfg.Norm(a) !in table && cfg.InCode(a);
    missing := Norms(cfg, raw) - cfg.expected - dynamic;
    Empty(missing);
    forall a | a in c.tails ensures a in raw <==> cfg.InCode(a) && !Dispatched(cfg, c, a) {}
    forall a | a in raw ensures cfg.Norm(a) in missing <==> cfg.Norm(a) !in cfg.expected && !Dynamic(cfg, m, a) {}
  }

  method DynamicFindings(cfg: Config, c: Code, m: Manifests) returns (n: nat)
    ensures n == 0 <==> DynamicInstalled(cfg, c, m)
  {
    var table := Norms(cfg, c.table);
    var inData := set a | a in c.table && m.InData(a);
    var outside := set a | a in m.dynamic && !m.InData(a);
    var dispatched := set a | a in m.dynamic && cfg.Norm(a) in table;
    NoneSuch(inData, c.table, a => m.InData(a));
    NoneSuch(outside, m.dynamic, a => !m.InData(a));
    NoneSuch(dispatched, m.dynamic, a => cfg.Norm(a) in table);
    forall a | a in m.dynamic ensures cfg.Norm(a) in table <==> Dispatched(cfg, c, a) {}
    n := |inData| + |outside| + |dispatched|;
  }

  lemma NoneSuch<T>(found: set<T>, all: set<T>, p: T -> bool)
    requires forall a :: a in found <==> a in all && p(a)
    ensures |found| == 0 <==> forall a :: a in all ==> !p(a)
  {
    Empty(found);
    forall a | a in all ensures a in found <==> p(a) {}
  }

  /** The status is CLEAN exactly when everything it stands for holds. */
  method Status(cfg: Config, c: Code, m: Manifests) returns (clean: bool)
    ensures clean <==> Clean(cfg, c, m)
  {
    var defs := Missing(cfg, c.defs, c.table);
    var literals := MissingLiterals(cfg, c, m);
    var tails := UnexpectedTails(cfg, c, m);
    var missing := Missing(cfg, c.defs, c.entries);
    var extra := Missing(cfg, c.entries, c.defs);
    var overlap := Overlaps(c.ranges, m.data);
    var dynamic := DynamicFindings(cfg, c, m);
    var calls := c.calls - c.names;
    NoneSuch(calls, c.calls, n => n !in c.names);
    var bugs := c.unknown + c.unsupported + c.buggy + |defs| + |literals| + |calls| + |tails|
      + |missing| + |extra| + |overlap| + dynamic
      + (if m.dataError then 1 else 0) + (if m.dynamicError then 1 else 0) + (if c.hasRanges then 0 else 1);
    clean := bugs == 0;
  }

  // ---- what a CLEAN status promises ----

  /** No address is both code and data; and the overlap test flags two ranges only if they
      share an address or one of them is empty. */
  lemma CleanSeparates(cfg: Config, c: Code, m: Manifests, i: nat, a: nat)
    requires Clean(cfg, c, m) && i < |c.ranges| && c.ranges[i].Has(a)
    ensures !m.InData(a)
  {
    assert forall j :: 0 <= j < |m.data| && m.data[j].Has(a) ==> Meets(c.ranges[i], m.data[j]);
  }

  lemma MeetsIff(s: Span, t: Span)
    requires s.lo < s.hi && t.lo < t.hi
    ensures Meets(s, t) <==> exists a :: s.Has(a) && t.Has(a)
  {
    var a := if s.lo < t.lo then t.lo else s.lo;
    assert Meets(s, t) ==> s.Has(a) && t.Has(a);
  }

  /** A literal target in the code region reaches either a dispatched function or code that
      is installed at run time, never both: then the target's dynamic alias lies in data and
      outside every code range. */
  lemma CleanLiteral(cfg: Config, c: Code, m: Manifests, a: nat)
    requires Clean(cfg, c, m) && a in c.literals && cfg.InCode(a)
    ensures Dispatched(cfg, c, a) <==> !Dynamic(cfg, m, a)
    ensures !Dispatched(cfg, c, a) ==> exists t :: t in m.dynamic && cfg.Norm(t) == cfg.Norm(a) && m.InData(t)
                                         && forall i :: 0 <= i < |c.ranges| ==> !c.ranges[i].Has(t)
  {
    if Dynamic(cfg, m, a) {
      var t :| t in m.dynamic && cfg.Norm(t) == cfg.Norm(a);
      assert !Dispatched(cfg, c, t);
      forall i | 0 <= i < |c.ranges| ensures !c.ranges[i].Has(t) {
        if c.ranges[i].Has(t) { CleanSeparates(cfg, c, m, i, t); }
      }
    }
  }

  /** The compiled entries, up to aliases, are exactly those of the range manifest, and all
      of them are dispatched and none is dynamic. */
  lemma CleanEntries(cfg: Config, c: Code, m: Manifests, a: nat)
    requires Clean(cfg, c, m)
    ensures Has(cfg, c.defs, a) <==> Has(cfg, c.entries, a)
    ensures Has(cfg, c.defs, a) ==> Dispatched(cfg, c, a) && !Dynamic(cfg, m, a)
  {
    if Has(cfg, c.defs, a) {
      var t :| t in c.defs && cfg.Norm(t) == cfg.Norm(a);
      assert Has(cfg, c.table, t) && Has(cfg, c.entries, t);
    }
    if Has(cfg, c.entries, a) { var t :| t in c.entries && cfg.Norm(t) == cfg.Norm(a); assert Has(cfg, c.defs, t); }
    if Dynamic(cfg, m, a) { var t :| t in m.dynamic && cfg.Norm(t) == cfg.Norm(a); assert !Dispatched(cfg, c, t); }
  }
}
