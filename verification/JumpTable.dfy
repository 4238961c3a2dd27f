/** The recogniser for the compiler's local jump-table idiom feeding `jr reg`, and
    its soundness: executing the idiom lands in the recovered set. */
module JumpTable {
  import opened Mips

  /** What the backward scan has found so far. */
  datatype Scan = Scan(lw: Option<(Reg, int)>, cand: Option<(Reg, Reg)>, lui: Option<int>,
                       addiu: (Option<int>, Option<int>), count: nat)

  const INITIAL := Scan(None, None, None, (None, None), 0)

  datatype Step = More(st: Scan) | Stop(st: Scan)

  /** One word of the backward scan, in the order in which the tool tests it. */
  function ScanWord(st: Scan, w: Instr, jrRs: Reg): Step {
    if w.op == 0x23 && w.rt == jrRs && st.lw.None? then
      More(st.(lw := Some((w.rs, w.Simm()))))
    else if w.op == 0x00 && w.fn == 0x21 && st.lw.Some? && w.rd == st.lw.value.0 && st.cand.None? then
      More(st.(cand := Some((w.rs, w.rt))))
    else if w.op == 0x09 && st.cand.Some? then
      var (x, y) := st.cand.value;
      if st.addiu.0.None? && w.rs == x && w.rt == x then More(st.(addiu := (Some(w.Simm()), st.addiu.1)))
      else if st.addiu.1.None? && w.rs == y && w.rt == y then More(st.(addiu := (st.addiu.0, Some(w.Simm()))))
      else More(st)
    else if w.op == 0x0F && st.cand.Some? && st.lui.None? then
      var (x, y) := st.cand.value;
      if w.rt == x then More(st.(lui := Some(w.uimm * 0x1_0000)))
      else if w.rt == y then More(st.(lui := Some(w.uimm * 0x1_0000), addiu := (st.addiu.1, st.addiu.1)))
      else More(st)
    else if w.op == 0x0B && st.count == 0 then More(st.(count := w.uimm))
    else if st.lui.Some? && st.count != 0 then Stop(st)
    else More(st)
  }

  /** The scan reads at most 40 words, and none before the function entry. */
  function Floor(entry: int, jrPc: int): int { if entry < jrPc - 160 then jrPc - 160 else entry }

  /** The scan from address `a` downwards. */
  function ScanFrom(img: Image, floor: int, a: int, jrRs: Reg, st: Scan): Scan
    decreases a - floor
  {
    if a < floor || a !in img.words then st
    else match ScanWord(st, img.words[a], jrRs)
      case Stop(st') => st'
      case More(st') => ScanFrom(img, floor, a - 4, jrRs, st')
  }

  /** Where the table starts and how many entries it has, if the idiom was found. */
  function Table(st: Scan): Option<(int, nat)> {
    if st.lui.None? || st.count == 0 || st.count >= 512 then None
    else Some((st.lui.value + (if st.addiu.0.Some? then st.addiu.0.value else 0)
               + (if st.lw.Some? then st.lw.value.1 else 0), st.count))
  }

  predicate InFunction(img: Image, entry: int, cap: int, a: int) {
    img.load <= a < img.Hi() && entry <= a < cap && a % 4 == 0
  }

  predicate EntryPresent(img: Image, base: int, i: int) { base + i * 4 in img.words }

  /** The `i`-th word of the table at `base` is `t`. */
  predicate EntryAt(img: Image, base: int, i: int, t: int) {
    base + i * 4 in img.words && img.words[base + i * 4].raw == t
  }

  /** The words of the table that lie in the function. */
  function Entries(img: Image, entry: int, cap: int, base: int, n: nat): (r: set<int>)
    ensures forall t :: t in r <==> InFunction(img, entry, cap, t) && exists i :: 0 <= i < n && EntryAt(img, base, i, t)
  {
    if n == 0 then {}
    else
      var r := Entries(img, entry, cap, base, n - 1);
      var a := base + (n - 1) * 4;
      if a !in img.words then r
      else
        var t := img.words[a].raw;
        assert EntryAt(img, base, n - 1, t);
        if InFunction(img, entry, cap, t) then r + {t} else r
  }

  function Targets(img: Image, entry: int, cap: int, jrPc: int, jrRs: Reg): set<int> {
    match Table(ScanFrom(img, Floor(entry, jrPc), jrPc - 4, jrRs, INITIAL))
    case None => {}
    case Some((base, n)) => Entries(img, entry, cap, base, n)
  }

  /** The backward scan as the tool runs it. */
  method ScanBack(img: Image, entry: int, jrPc: int, jrRs: Reg) returns (st: Scan)
    ensures st == ScanFrom(img, Floor(entry, jrPc), jrPc - 4, jrRs, INITIAL)
  {
    var back, scanning := 1, true;
    st := INITIAL;
    ghost var floor := Floor(entry, jrPc);
    while back <= 40 && scanning
      invariant 1 <= back <= 41
      invariant ScanFrom(img, floor, jrPc - 4, jrRs, INITIAL)
             == if scanning then ScanFrom(img, floor, jrPc - 4 * back, jrRs, st) else st
      decreases 41 - back, scanning
    {
      var a := jrPc - 4 * back;
      if a < entry || a !in img.words {
        scanning := false;
      } else {
        var step := ScanWord(st, img.words[a], jrRs);
        st := step.st;
        if step.Stop? { scanning := false; } else { back := back + 1; }
      }
    }
  }

  /** The recogniser as the tool runs it. */
  method FindTargets(img: Image, entry: int, cap: int, jrPc: int, jrRs: Reg) returns (targets: set<int>)
    ensures targets == Targets(img, entry, cap, jrPc, jrRs)
    ensures forall t :: t in targets ==> InFunction(img, entry, cap, t)
  {
    var st := ScanBack(img, entry, jrPc, jrRs);
    targets := {};
    var table := Table(st);
    if table.None? { return; }
    var (base, n) := table.value;
    var i := 0;
    while i < n
      invariant 0 <= i <= n
      invariant targets == Entries(img, entry, cap, base, i)
    {
      var a := base + i * 4;
      if a in img.words && InFunction(img, entry, cap, img.words[a].raw) {
        targets := targets + {img.words[a].raw};
      }
      i := i + 1;
    }
  }

  /** A lower cap only filters the recovered targets. */
  lemma TargetsShrink(img: Image, entry: int, cap: int, cap': int, jrPc: int, jrRs: Reg)
    requires cap' <= cap
    ensures forall t :: t in Targets(img, entry, cap', jrPc, jrRs)
              <==> t in Targets(img, entry, cap, jrPc, jrRs) && t < cap'
  {
    var table := Table(ScanFrom(img, Floor(entry, jrPc), jrPc - 4, jrRs, INITIAL));
    if table.Some? {
      var (base, n) := table.value;
      assert forall t :: t in Entries(img, entry, cap', base, n)
               <==> t in Entries(img, entry, cap, base, n) && t < cap';
    }
  }

  // ---- the idiom ----

  /** Distances, in words before the `jr`, of the instructions of the idiom
      (`sltiu .., index, bound`; `sll scaled, index, 2`; `lui table, hi`;
      `addiu table, table, lo`, which may be absent; `addu base, ..`;
      `lw jrRs, offset(base)`), and the registers it uses. */
  datatype Idiom = Idiom(bound: nat, sll: nat, lui: nat, addiu: Option<nat>, addu: nat, lw: nat,
                         index: Reg, scaled: Reg, table: Reg, base: Reg, jrRs: Reg) {
    predicate Has(k: int) { k in {bound, sll, lui, addu, lw} || addiu == Some(k) }

    predicate Ordered() {
      && 0 < lw < addu < lui < bound <= 40
      && addu < sll < bound && sll != lui
      && (addiu.Some? ==> addu < addiu.value < lui && sll != addiu.value)
    }
  }

  predicate WordsPresent(img: Image, entry: int, jrPc: int, n: nat) {
    entry <= jrPc - 4 * n && forall k :: 1 <= k <= n ==> jrPc - 4 * k in img.words
  }

  function W(img: Image, jrPc: int, k: int): Instr
    requires jrPc - 4 * k in img.words
  {
    img.words[jrPc - 4 * k]
  }

  /** The scan would take this word for a part of the idiom. */
  predicate Misleads(d: Idiom, w: Instr) {
    || w.op == 0x0B
    || (w.op == 0x0F && w.rt in {d.table, d.scaled})
    || (w.op == 0x09 && w.rs == w.rt && w.rt in {d.table, d.scaled})
    || (w.op == 0x23 && w.rt == d.jrRs)
    || (w.op == 0x00 && w.fn == 0x21 && w.rd == d.base)
  }

  /** The word at distance `k` leaves each register of the idiom alone while it is in use. */
  predicate Quiet(d: Idiom, k: int, w: Instr) {
    && Writes(w).Some?
    && (d.sll < k ==> d.index !in Writes(w).value)
    && (d.addu < k < d.sll ==> d.scaled !in Writes(w).value)
    && (d.addu < k < d.lui ==> d.table !in Writes(w).value)
    && (d.lw < k < d.addu ==> d.base !in Writes(w).value)
    && (k < d.lw ==> d.jrRs !in Writes(w).value)
  }

  predicate SelfAdd(w: Instr, r: Reg) { w.op == 0x09 && w.rs == r && w.rt == r }

  /** What the scan takes for the idiom's `addiu` before the bound check, if the idiom has
      none: the first self-add of `r` in the unbroken run of `addiu` words there. */
  function Stray(img: Image, entry: int, jrPc: int, k: nat, r: Reg): Option<int>
    decreases 41 - k
  {
    var a := jrPc - 4 * k;
    if k > 40 || a < entry || a !in img.words || img.words[a].op != 0x09 then None
    else if SelfAdd(img.words[a], r) then Some(img.words[a].Simm())
    else Stray(img, entry, jrPc, k + 1, r)
  }

  predicate IsIndexing(d: Idiom, w: Instr) {
    && w.op == 0 && w.fn == 0x21 && w.rd == d.base
    && ((w.rs == d.table && w.rt == d.scaled) || (w.rs == d.scaled && w.rt == d.table))
  }

  ghost predicate Shape(img: Image, entry: int, jrPc: int, d: Idiom) {
    && d.Ordered() && WordsPresent(img, entry, jrPc, d.bound)
    && 0 !in {d.scaled, d.table, d.base, d.jrRs}
    && d.table != d.scaled && (d.sll < d.lui ==> d.table != d.index)
    && (var w := W(img, jrPc, d.lw); w.op == 0x23 && w.rt == d.jrRs && w.rs == d.base)
    && IsIndexing(d, W(img, jrPc, d.addu))
    && (d.addiu.Some? ==> SelfAdd(W(img, jrPc, d.addiu.value), d.table))
    && (var w := W(img, jrPc, d.lui); w.op == 0x0F && w.rt == d.table)
    && (var w := W(img, jrPc, d.sll); w.op == 0 && w.fn == 0 && w.rt == d.index && w.rd == d.scaled && w.shamt == 2)
    && (var w := W(img, jrPc, d.bound); w.op == 0x0B && w.rs == d.index && w.rt != d.index && 1 <= w.uimm)
    && (forall k :: 1 <= k <= d.bound && !d.Has(k) ==> !Misleads(d, W(img, jrPc, k)) && Quiet(d, k, W(img, jrPc, k)))
  }

  /** What such a stray add contributes to the recovered table. */
  ghost function Shift(img: Image, entry: int, jrPc: int, d: Idiom): int
    requires Shape(img, entry, jrPc, d)
  {
    var stray := Stray(img, entry, jrPc, d.bound + 1, W(img, jrPc, d.addu).rs);
    if d.addiu.None? && stray.Some? then stray.value else 0
  }

  /** The idiom for a table of at most 511 entries, with its own `addiu` or without a stray one
      that would shift the table. */
  ghost predicate Matches(img: Image, entry: int, jrPc: int, d: Idiom) {
    Shape(img, entry, jrPc, d) && Bound(img, jrPc, d) < 512 && Shift(img, entry, jrPc, d) == 0
  }

  /** Larger tables are not recovered. */
  function Recovered(base: int, n: nat): Option<(int, nat)> { if n < 512 then Some((base, n)) else None }

  function Bound(img: Image, jrPc: int, d: Idiom): nat
    requires jrPc - 4 * d.bound in img.words
  {
    W(img, jrPc, d.bound).uimm
  }

  ghost function TableBase(img: Image, entry: int, jrPc: int, d: Idiom): int
    requires Shape(img, entry, jrPc, d)
  {
    W(img, jrPc, d.lui).uimm * 0x1_0000 + Low(img, entry, jrPc, d) + W(img, jrPc, d.lw).Simm()
  }

  /** The low part that the `addiu` contributes, if there is one. */
  ghost function Low(img: Image, entry: int, jrPc: int, d: Idiom): int
    requires Shape(img, entry, jrPc, d)
  {
    if d.addiu.Some? then W(img, jrPc, d.addiu.value).Simm() else 0
  }

  /** The whole table can be read from the image, which lies in the 32-bit address space. */
  ghost predicate TableInside(img: Image, base: int, n: int) {
    0 <= base && base + 4 * n <= 0x1_0000_0000 && forall i :: 0 <= i < n ==> EntryPresent(img, base, i)
  }

  // ---- the scan finds the idiom ----

  /** The scanner's state when it is about to read the word `back` before the jump. */
  ghost function Expected(img: Image, entry: int, jrPc: int, d: Idiom, back: int): Scan
    requires Shape(img, entry, jrPc, d)
  {
    var lw := if back > d.lw then Some((d.base, W(img, jrPc, d.lw).Simm())) else None;
    var addu := W(img, jrPc, d.addu);
    var cand := if back > d.addu then Some((addu.rs, addu.rt)) else None;
    var lo := if d.addiu.Some? && back > d.addiu.value then Some(W(img, jrPc, d.addiu.value).Simm()) else None;
    var lui := if back > d.lui then Some(W(img, jrPc, d.lui).uimm * 0x1_0000) else None;
    var first := addu.rs == d.table;
    Scan(lw, cand, lui,
         (if first || back > d.lui then lo else None, if first then None else lo),
         if back > d.bound then Bound(img, jrPc, d) else 0)
  }

  lemma ScanStep(img: Image, entry: int, jrPc: int, d: Idiom, back: nat)
    requires Shape(img, entry, jrPc, d) && 1 <= back <= d.bound
    ensures ScanWord(Expected(img, entry, jrPc, d, back), W(img, jrPc, back), d.jrRs)
         == More(Expected(img, entry, jrPc, d, back + 1))
  {
    var w := W(img, jrPc, back);
    if !d.Has(back) { assert !Misleads(d, w); }
  }

  /** Once everything is found, the rest of the scan cannot change the table. */
  lemma {:induction false} ScanFrozen(img: Image, floor: int, a: int, jrRs: Reg, st: Scan)
    requires st.lw.Some? && st.cand.Some? && st.lui.Some? && st.addiu.0.Some? && st.count != 0
    ensures Table(ScanFrom(img, floor, a, jrRs, st)) == Table(st)
    decreases a - floor
  {
    if a >= floor && a in img.words {
      var step := ScanWord(st, img.words[a], jrRs);
      if step.More? { ScanFrozen(img, floor, a - 4, jrRs, step.st); }
    }
  }

  /** While no `addiu` is found, the scan goes on through `addiu` words and takes over the
      first self-add of the first operand. */
  lemma {:induction false} ScanSettles(img: Image, entry: int, jrPc: int, k: nat, jrRs: Reg, st: Scan)
    requires st.lw.Some? && st.cand.Some? && st.lui.Some? && st.addiu.0.None? && st.count != 0
    ensures Table(ScanFrom(img, Floor(entry, jrPc), jrPc - 4 * k, jrRs, st))
         == Table(st.(addiu := (Stray(img, entry, jrPc, k, st.cand.value.0), st.addiu.1)))
    decreases 41 - k
  {
    var a, x := jrPc - 4 * k, st.cand.value.0;
    if k <= 40 && entry <= a && a in img.words && img.words[a].op == 0x09 {
      var st' := ScanWord(st, img.words[a], jrRs).st;
      assert jrPc - 4 * (k + 1) == a - 4;
      if SelfAdd(img.words[a], x) {
        ScanFrozen(img, Floor(entry, jrPc), a - 4, jrRs, st');
      } else {
        ScanSettles(img, entry, jrPc, k + 1, jrRs, st');
      }
    }
  }

  lemma ExpectedEnds(img: Image, entry: int, jrPc: int, d: Idiom)
    requires Shape(img, entry, jrPc, d)
    ensures Expected(img, entry, jrPc, d, 1) == INITIAL
    ensures var st := Expected(img, entry, jrPc, d, d.bound + 1);
            && st.lw.Some? && st.cand.Some? && st.lui.Some? && st.count != 0
            && (st.addiu.0.Some? <==> d.addiu.Some?) && st.cand.value.0 == W(img, jrPc, d.addu).rs
            && Table(st) == Recovered(TableBase(img, entry, jrPc, d), Bound(img, jrPc, d))
  {}

  /** The scan reaches the words before the bound check with everything found. */
  lemma {:induction false} ScanReaches(img: Image, entry: int, jrPc: int, d: Idiom, back: nat)
    requires Shape(img, entry, jrPc, d) && 1 <= back <= d.bound + 1
    ensures ScanFrom(img, Floor(entry, jrPc), jrPc - 4 * back, d.jrRs, Expected(img, entry, jrPc, d, back))
         == ScanFrom(img, Floor(entry, jrPc), jrPc - 4 * (d.bound + 1), d.jrRs,
                     Expected(img, entry, jrPc, d, d.bound + 1))
    decreases d.bound + 1 - back
  {
    if back <= d.bound {
      ScanStep(img, entry, jrPc, d, back);
      ScanReaches(img, entry, jrPc, d, back + 1);
    }
  }

  /** On every shape of the idiom the scan recovers the bound and the table, shifted by a
      stray add if it takes one over. */
  lemma IdiomFound(img: Image, entry: int, jrPc: int, d: Idiom)
    requires Shape(img, entry, jrPc, d)
    ensures Table(ScanFrom(img, Floor(entry, jrPc), jrPc - 4, d.jrRs, INITIAL))
         == Recovered(TableBase(img, entry, jrPc, d) + Shift(img, entry, jrPc, d), Bound(img, jrPc, d))
  {
    var k := d.bound + 1;
    var st := Expected(img, entry, jrPc, d, k);
    ExpectedEnds(img, entry, jrPc, d);
    ScanReaches(img, entry, jrPc, d, 1);
    if d.addiu.Some? {
      ScanFrozen(img, Floor(entry, jrPc), jrPc - 4 * k, d.jrRs, st);
    } else {
      ScanSettles(img, entry, jrPc, k, d.jrRs, st);
    }
  }

  /** So the table that the code uses is recovered if and only if nothing shifts it. */
  lemma IdiomFoundIff(img: Image, entry: int, jrPc: int, d: Idiom)
    requires Shape(img, entry, jrPc, d)
    ensures Table(ScanFrom(img, Floor(entry, jrPc), jrPc - 4, d.jrRs, INITIAL))
              == Some((TableBase(img, entry, jrPc, d), Bound(img, jrPc, d)))
       <==> Matches(img, entry, jrPc, d)
  {
    IdiomFound(img, entry, jrPc, d);
  }

  /** Distance `n` holds the first self-add of `r` in the run of `addiu` words from `k` on. */
  predicate FirstSelfAdd(img: Image, entry: int, jrPc: int, k: nat, n: nat, r: Reg) {
    && k <= n <= 40 && entry <= jrPc - 4 * n
    && (forall m :: k <= m <= n ==> jrPc - 4 * m in img.words && W(img, jrPc, m).op == 0x09)
    && SelfAdd(W(img, jrPc, n), r) && forall m :: k <= m < n ==> !SelfAdd(W(img, jrPc, m), r)
  }

  lemma {:induction false} StrayAt(img: Image, entry: int, jrPc: int, k: nat, n: nat, r: Reg)
    requires FirstSelfAdd(img, entry, jrPc, k, n, r)
    ensures Stray(img, entry, jrPc, k, r) == Some(W(img, jrPc, n).Simm())
    decreases n - k
  {
    if k < n {
      assert !SelfAdd(W(img, jrPc, k), r) && entry <= jrPc - 4 * k;
      StrayAt(img, entry, jrPc, k + 1, n, r);
    }
  }

  /** Without an `addiu` of its own, the idiom takes over such a self-add of its first
      operand, wherever in the run it stands, and the table is off by its immediate. */
  lemma StrayAddMisleads(img: Image, entry: int, jrPc: int, d: Idiom, n: nat)
    requires Shape(img, entry, jrPc, d) && d.addiu.None?
    requires FirstSelfAdd(img, entry, jrPc, d.bound + 1, n, W(img, jrPc, d.addu).rs)
    ensures Table(ScanFrom(img, Floor(entry, jrPc), jrPc - 4, d.jrRs, INITIAL))
         == Recovered(TableBase(img, entry, jrPc, d) + W(img, jrPc, n).Simm(), Bound(img, jrPc, d))
  {
    StrayAt(img, entry, jrPc, d.bound + 1, n, W(img, jrPc, d.addu).rs);
    IdiomFound(img, entry, jrPc, d);
  }

  // ---- executing the idiom ----

  /** One straight-line step. The instructions of the idiom have their MIPS meaning;
      any other word may change exactly the registers it writes. */
  ghost predicate Executes(img: Image, w: Instr, r: Regs, r': Regs) {
    if w.op == 0x0F then r' == SetReg(r, w.rt, w.uimm * 0x1_0000)
    else if w.op == 0x09 then r' == SetReg(r, w.rt, Wrap(r[w.rs] + w.Simm()))
    else if w.op == 0 && w.fn == 0x21 then r' == SetReg(r, w.rd, Wrap(r[w.rs] as int + r[w.rt]))
    else if w.op == 0 && w.fn == 0x00 && w.shamt == 2 then r' == SetReg(r, w.rd, Wrap(r[w.rt] as int * 4))
    else if w.op == 0x23 then
      var a := Wrap(r[w.rs] + w.Simm());
      && a % 4 == 0
      && if a in img.words then r' == SetReg(r, w.rt, img.words[a].raw)
         else exists v :: r' == SetReg(r, w.rt, v)
    else
      match Writes(w)
      case None => true
      case Some(s) => forall x: Reg :: x !in s ==> r'[x] == r[x]
  }

  /** `t[k]` holds the registers `k` words before the jump; `t[0]` those the jump reads. */
  ghost predicate Trace(img: Image, entry: int, jrPc: int, n: nat, t: seq<Regs>) {
    && WordsPresent(img, entry, jrPc, n) && |t| == n + 1
    && forall k, k' :: 1 <= k <= n && k' == k - 1 ==> Executes(img, W(img, jrPc, k), t[k], t[k'])
  }

  /** A register keeps its value across words that do not write it. */
  lemma {:induction false} Kept(img: Image, entry: int, jrPc: int, n: nat, t: seq<Regs>, hi: nat, lo: nat, x: Reg)
    requires Trace(img, entry, jrPc, n, t) && lo <= hi <= n
    requires forall k :: lo < k <= hi ==> Writes(W(img, jrPc, k)).Some? && x !in Writes(W(img, jrPc, k)).value
    ensures t[lo][x] == t[hi][x]
    decreases hi
  {
    if lo < hi {
      Kept(img, entry, jrPc, n, t, hi - 1, lo, x);
      KeptOnce(img, W(img, jrPc, hi), t[hi], t[hi - 1], x);
    }
  }

  lemma KeptOnce(img: Image, w: Instr, r: Regs, r': Regs, x: Reg)
    requires Executes(img, w, r, r') && Writes(w).Some? && x !in Writes(w).value
    ensures r'[x] == r[x]
  {}

  /** No word of the window, of the idiom or not, disturbs a register that is in use. */
  lemma IdiomWrites(img: Image, entry: int, jrPc: int, d: Idiom, k: nat)
    requires Shape(img, entry, jrPc, d) && 1 <= k <= d.bound
    ensures var s := Writes(W(img, jrPc, k));
            && s.Some?
            && (d.sll < k ==> d.index !in s.value) && (d.addu < k < d.sll ==> d.scaled !in s.value)
            && (d.addu < k < d.lui && d.addiu != Some(k) ==> d.table !in s.value)
            && (d.lw < k < d.addu ==> d.base !in s.value) && (k < d.lw ==> d.jrRs !in s.value)
  {
    if !d.Has(k) { assert Quiet(d, k, W(img, jrPc, k)); }
  }

  lemma IndexScaled(img: Image, entry: int, jrPc: int, d: Idiom, t: seq<Regs>)
    requires Shape(img, entry, jrPc, d) && Trace(img, entry, jrPc, d.bound, t)
    ensures t[d.addu][d.scaled] == Wrap(t[d.bound][d.index] as int * 4)
  {
    forall k | d.sll < k <= d.bound
      ensures Writes(W(img, jrPc, k)).Some? && d.index !in Writes(W(img, jrPc, k)).value
    { IdiomWrites(img, entry, jrPc, d, k); }
    Kept(img, entry, jrPc, d.bound, t, d.bound, d.sll, d.index);
    assert Executes(img, W(img, jrPc, d.sll), t[d.sll], t[d.sll - 1]);
    forall k | d.addu < k <= d.sll - 1
      ensures Writes(W(img, jrPc, k)).Some? && d.scaled !in Writes(W(img, jrPc, k)).value
    { IdiomWrites(img, entry, jrPc, d, k); }
    Kept(img, entry, jrPc, d.bound, t, d.sll - 1, d.addu, d.scaled);
  }

  lemma TableLoaded(img: Image, entry: int, jrPc: int, d: Idiom, t: seq<Regs>)
    requires Shape(img, entry, jrPc, d) && Trace(img, entry, jrPc, d.bound, t)
    ensures t[d.addu][d.table] == Wrap(W(img, jrPc, d.lui).uimm * 0x1_0000 + Low(img, entry, jrPc, d))
  {
    assert Executes(img, W(img, jrPc, d.lui), t[d.lui], t[d.lui - 1]);
    forall k | d.addu < k < d.lui && d.addiu != Some(k)
      ensures Writes(W(img, jrPc, k)).Some? && d.table !in Writes(W(img, jrPc, k)).value
    { IdiomWrites(img, entry, jrPc, d, k); }
    if d.addiu.Some? {
      var m := d.addiu.value;
      Kept(img, entry, jrPc, d.bound, t, d.lui - 1, m, d.table);
      assert Executes(img, W(img, jrPc, m), t[m], t[m - 1]);
      Kept(img, entry, jrPc, d.bound, t, m - 1, d.addu, d.table);
    } else {
      Kept(img, entry, jrPc, d.bound, t, d.lui - 1, d.addu, d.table);
    }
  }

  lemma BaseComputed(img: Image, entry: int, jrPc: int, d: Idiom, t: seq<Regs>)
    requires Shape(img, entry, jrPc, d) && Trace(img, entry, jrPc, d.bound, t)
    ensures t[d.lw][d.base] == Wrap(t[d.addu][d.table] as int + t[d.addu][d.scaled])
  {
    assert Executes(img, W(img, jrPc, d.addu), t[d.addu], t[d.addu - 1]);
    forall k | d.lw < k <= d.addu - 1
      ensures Writes(W(img, jrPc, k)).Some? && d.base !in Writes(W(img, jrPc, k)).value
    { IdiomWrites(img, entry, jrPc, d, k); }
    Kept(img, entry, jrPc, d.bound, t, d.addu - 1, d.lw, d.base);
  }

  lemma TargetLoaded(img: Image, entry: int, jrPc: int, d: Idiom, t: seq<Regs>)
    requires Shape(img, entry, jrPc, d) && Trace(img, entry, jrPc, d.bound, t)
    requires Wrap(t[d.lw][d.base] + W(img, jrPc, d.lw).Simm()) in img.words
    ensures t[0][d.jrRs] == img.words[Wrap(t[d.lw][d.base] + W(img, jrPc, d.lw).Simm())].raw
  {
    assert Executes(img, W(img, jrPc, d.lw), t[d.lw], t[d.lw - 1]);
    forall k | 0 < k <= d.lw - 1
      ensures Writes(W(img, jrPc, k)).Some? && d.jrRs !in Writes(W(img, jrPc, k)).value
    { IdiomWrites(img, entry, jrPc, d, k); }
    Kept(img, entry, jrPc, d.bound, t, d.lw - 1, 0, d.jrRs);
  }

  /** 32-bit address arithmetic does not wrap when the address it forms is in range. */
  lemma WrappedSum(hi: int, lo: int, off: int, i: int)
    requires 0 <= i < 0x1_0000 && 0 <= hi + lo + off + 4 * i < 0x1_0000_0000
    ensures Wrap(Wrap(Wrap(hi + lo) as int + Wrap(i * 4)) + off) == hi + lo + off + i * 4
  {}

  /** The jump goes to the table entry that the index selects. */
  lemma JumpReadsTable(img: Image, entry: int, jrPc: int, d: Idiom, t: seq<Regs>)
    requires Shape(img, entry, jrPc, d) && Trace(img, entry, jrPc, d.bound, t)
    requires t[d.bound][d.index] < Bound(img, jrPc, d)
    requires TableInside(img, TableBase(img, entry, jrPc, d), Bound(img, jrPc, d))
    ensures EntryAt(img, TableBase(img, entry, jrPc, d), t[d.bound][d.index], t[0][d.jrRs])
  {
    var i: int := t[d.bound][d.index];
    var b := TableBase(img, entry, jrPc, d);
    assert EntryPresent(img, b, i);
    IndexScaled(img, entry, jrPc, d, t);
    TableLoaded(img, entry, jrPc, d, t);
    BaseComputed(img, entry, jrPc, d, t);
    WrappedSum(W(img, jrPc, d.lui).uimm * 0x1_0000, Low(img, entry, jrPc, d), W(img, jrPc, d.lw).Simm(), i);
    TargetLoaded(img, entry, jrPc, d, t);
  }

  /** Soundness on the idiom: every in-bounds execution lands in the recovered set,
      if it lands in the function at all. */
  lemma RecoveryIsSound(img: Image, entry: int, cap: int, jrPc: int, d: Idiom, t: seq<Regs>)
    requires Matches(img, entry, jrPc, d) && Trace(img, entry, jrPc, d.bound, t)
    requires t[d.bound][d.index] < Bound(img, jrPc, d)
    requires TableInside(img, TableBase(img, entry, jrPc, d), Bound(img, jrPc, d))
    ensures InFunction(img, entry, cap, t[0][d.jrRs]) <==> t[0][d.jrRs] in Targets(img, entry, cap, jrPc, d.jrRs)
  {
    JumpReadsTable(img, entry, jrPc, d, t);
    IdiomFound(img, entry, jrPc, d);
  }
}
