/** The basic-block analyser: leaders, blocks that include their delay slot, successor
    edges and reversed edges. */
module BasicBlocks {
  import M = Mips
  import opened Collections

  datatype Kind = Plain | Branch(target: int) | Jump(target: int) | Call(target: int) | JumpReg | CallReg | Return

  /** The decoder's classification of control transfers. */
  function KindOf(pc: int, i: M.Instr): Kind {
    if i.op == 0 && i.fn == 0x08 then (if i.rs == 31 then Return else JumpReg)
    else if i.op == 0 && i.fn == 0x09 then CallReg
    else if i.op == 1 && i.rt in {0x00, 0x01, 0x10, 0x11} then Branch(M.BranchTarget(pc, i))
    else if i.op == 0x11 && i.rs in {0x08, 0x0C} then Branch(M.BranchTarget(pc, i))
    else if i.op == 2 then Jump(M.JumpTarget(pc, i))
    else if i.op == 3 then Call(M.JumpTarget(pc, i))
    else if i.op in {4, 5, 6, 7} then Branch(M.BranchTarget(pc, i))
    else Plain
  }

  /** A decoded executable: one kind per whole word of its `size` bytes. */
  datatype Exe = Exe(load: int, entry: int, size: nat, kinds: seq<Kind>) {
    function End(): int { load + size }
    function N(): nat { |kinds| }
    function Addr(i: int): int { load + 4 * i }
    predicate InImage(a: int) { load <= a < End() }
    predicate Transfer(i: int) requires 0 <= i < N() { !kinds[i].Plain? }

    /** `a` is the address of a decoded instruction. */
    predicate Decoded(a: int) { load <= a && (a - load) % 4 == 0 && (a - load) / 4 < N() }

    /** What a validated header guarantees. */
    predicate Valid() {
      0x8000_0000 <= load && 0 < size && load + size <= 0x8020_0000 && N() == size / 4
    }
  }

  /** The executable that the decoder makes of an image: every whole word, data included. */
  function Decoded(img: M.Image, entry: int): Exe
    requires forall i :: 0 <= i < img.size / 4 ==> img.load + 4 * i in img.words
  {
    Exe(img.load, entry, img.size,
        seq(img.size / 4, i requires 0 <= i < img.size / 4 => KindOf(img.load + 4 * i, img.words[img.load + 4 * i])))
  }

  function Idx(exe: Exe, a: int): (i: nat)
    requires exe.Decoded(a)
    ensures i < exe.N() && exe.Addr(i) == a
  {
    (a - exe.load) / 4
  }

  // ---- leaders ----

  /** The in-image static target of a transfer. */
  predicate Targets(exe: Exe, k: Kind, a: int) {
    (k.Branch? || k.Jump? || k.Call?) && a == k.target && a != 0 && exe.InImage(a)
  }

  /** Instruction `i` makes `a` a leader: it follows its delay slot, or is its target. */
  predicate LeaderFrom(exe: Exe, i: int, a: int)
    requires 0 <= i < exe.N()
  {
    exe.Transfer(i) && ((a == exe.Addr(i) + 8 && a < exe.End()) || Targets(exe, exe.kinds[i], a))
  }

  ghost predicate IsLeader(exe: Exe, a: int) {
    a == exe.entry || exists i :: 0 <= i < exe.N() && LeaderFrom(exe, i, a)
  }

  /** The leaders that one instruction contributes. */
  method AddLeaders(exe: Exe, i: nat, before: seq<int>) returns (leaders: seq<int>)
    requires i < exe.N() && Sorted(before)
    ensures Sorted(leaders) && forall a :: a in leaders <==> a in before || LeaderFrom(exe, i, a)
  {
    leaders := before;
    var k := exe.kinds[i];
    if k.Plain? { return; }
    var fall := exe.Addr(i) + 8;
    if fall < exe.End() { leaders := Insert(leaders, fall); }
    if k.Branch? || k.Jump? || k.Call? {
      if Targets(exe, k, k.target) { leaders := Insert(leaders, k.target); }
    }
  }

  method FindLeaders(exe: Exe) returns (leaders: seq<int>)
    ensures Sorted(leaders)
    ensures forall a :: a in leaders <==> IsLeader(exe, a)
  {
    leaders := [exe.entry];
    for i := 0 to exe.N()
      invariant Sorted(leaders)
      invariant forall a :: a in leaders <==> a == exe.entry || exists j :: 0 <= j < i && LeaderFrom(exe, j, a)
    {
      leaders := AddLeaders(exe, i, leaders);
    }
  }

  /** The words after whose delay slot a block starts. */
  predicate IsTransfer(i: M.Instr) {
    || i.op in {0x02, 0x03, 0x04, 0x05, 0x06, 0x07} || (i.op == 0x00 && i.fn in {0x08, 0x09})
    || (i.op == 0x01 && i.rt in {0x00, 0x01, 0x10, 0x11}) || (i.op == 0x11 && i.rs in {0x08, 0x0C})
  }

  /** The static destination of the word at `pc`, if it has one. */
  predicate GoesTo(pc: int, i: M.Instr, a: int) {
    IsTransfer(i) && i.op != 0x00 && a == if i.op in {0x02, 0x03} then M.JumpTarget(pc, i) else M.BranchTarget(pc, i)
  }

  /** Word `i` of the image is a transfer and makes `a`, in the image, a leader. */
  ghost predicate WordLeads(img: M.Image, i: int, a: int) {
    var pc := img.load + 4 * i;
    && 0 <= i < img.size / 4 && pc in img.words && img.load <= a < img.Hi()
    && ((IsTransfer(img.words[pc]) && a == pc + 8) || (GoesTo(pc, img.words[pc], a) && a != 0))
  }

  /** The leaders of a decoded image, off its words. */
  lemma LeadersOfWords(img: M.Image, entry: int, a: int)
    requires forall i :: 0 <= i < img.size / 4 ==> img.load + 4 * i in img.words
    ensures IsLeader(Decoded(img, entry), a)
       <==> a == entry || exists i :: WordLeads(img, i, a)
  {
    var exe := Decoded(img, entry);
    forall i | 0 <= i < exe.N() ensures LeaderFrom(exe, i, a) <==> WordLeads(img, i, a) {
      WordLeadsIff(img, entry, i, a);
    }
  }

  lemma WordLeadsIff(img: M.Image, entry: int, i: nat, a: int)
    requires forall i :: 0 <= i < img.size / 4 ==> img.load + 4 * i in img.words
    requires i < img.size / 4
    ensures LeaderFrom(Decoded(img, entry), i, a) <==> WordLeads(img, i, a)
  {
    var exe := Decoded(img, entry);
    assert exe.kinds[i] == KindOf(img.load + 4 * i, img.words[img.load + 4 * i]);
  }

  // ---- blocks ----

  datatype Block = Block(start: int, end: int, count: nat, hasDelay: bool, delay: int,
                         succs: seq<int>, preds: seq<int>) {
    predicate Contains(a: int) { start <= a <= end }
  }

  /** The last instruction of the block that starts at `s`, delay slot aside: the first
      transfer, or the last word before the next leader or the image end. */
  function Term(exe: Exe, s: nat, next: int): (t: nat)
    requires s < exe.N()
    ensures s <= t < exe.N()
    ensures forall u :: s <= u < t ==> !exe.Transfer(u)
    ensures forall u :: s < u <= t ==> exe.Addr(u) < next
    ensures exe.Transfer(t) || t + 1 == exe.N() || exe.Addr(t + 1) >= next
    decreases exe.N() - s
  {
    if exe.Transfer(s) || s + 1 == exe.N() || exe.Addr(s + 1) >= next then s else Term(exe, s + 1, next)
  }

  /** The successor addresses, as the analyser derives them from the finished block. */
  function Successors(exe: Exe, b: Block): set<int>
    requires exe.Decoded(b.end)
  {
    var via: M.Option<Kind> :=
      if b.hasDelay && b.count >= 2 then
        (if exe.Decoded(b.delay - 4) then M.Some(exe.kinds[Idx(exe, b.delay - 4)]) else M.None)
      else
        (if exe.Transfer(Idx(exe, b.end)) then M.Some(exe.kinds[Idx(exe, b.end)]) else M.None);
    var after := if b.hasDelay then b.delay + 4 else b.end + 4;
    var fall := b.end + 4;
    match via
    case None => if fall < exe.End() then {fall} else {}
    case Some(Branch(t)) => (if after < exe.End() then {after} else {}) + (if exe.InImage(t) then {t} else {})
    case Some(Call(_)) => if after < exe.End() then {after} else {}
    case Some(Jump(t)) => if exe.InImage(t) then {t} else {}
    case Some(_) => if exe.InImage(0) then {0} else {}
  }

  /** The block without its edges. */
  function Span(exe: Exe, s: nat, next: int): (b: Block)
    requires s < exe.N()
    ensures exe.Decoded(b.end)
  {
    var t := Term(exe, s, next);
    if exe.Transfer(t) && t + 1 < exe.N() then
      Block(exe.Addr(s), exe.Addr(t + 1), t + 2 - s, true, exe.Addr(t + 1), [], [])
    else
      Block(exe.Addr(s), exe.Addr(t), t + 1 - s, exe.Transfer(t), 0, [], [])
  }

  /** The scan that finds where a block ends. */
  method ScanBlock(exe: Exe, s: nat, next: int) returns (b: Block)
    requires s < exe.N() && exe.Addr(s) < next
    ensures b == Span(exe, s, next)
  {
    b := Block(exe.Addr(s), exe.Addr(s), 0, false, 0, [], []);
    var i, inDelay, ended := s, false, false;
    ghost var t := Term(exe, s, next);
    while i < exe.N() && !ended
      invariant s <= i <= exe.N()
      invariant b.start == exe.Addr(s) && b.count == i - s && b.succs == [] && b.preds == []
      invariant i > s ==> b.end == exe.Addr(i - 1)
      invariant !ended ==> b.delay == 0 && b.hasDelay == inDelay
      invariant !ended && !inDelay ==> i <= t && (i > s ==> exe.Addr(i) < next)
      invariant !ended && inDelay ==> i == t + 1 && exe.Transfer(t)
      invariant ended ==> b == Span(exe, s, next)
      decreases exe.N() - i, !ended
    {
      var a := exe.Addr(i);
      if !inDelay && a >= next && a != exe.Addr(s) { break; }
      b := b.(end := a, count := b.count + 1);
      if inDelay {
        b := b.(delay := a);
        ended := true;
      } else if exe.Transfer(i) {
        b := b.(hasDelay := true);
        inDelay := true;
      } else if i + 1 == exe.N() || exe.Addr(i + 1) >= next {
        ended := true;
      }
      i := i + 1;
    }
  }

  function NextLeader(exe: Exe, leaders: seq<int>, li: nat): int
    requires li < |leaders|
  {
    if li + 1 < |leaders| then leaders[li + 1] else exe.End()
  }

  /** `b` is the block of the `li`-th leader. */
  ghost predicate IsBlock(exe: Exe, leaders: seq<int>, li: nat, b: Block) {
    && li < |leaders| && exe.Decoded(leaders[li])
    && (var span := Span(exe, Idx(exe, leaders[li]), NextLeader(exe, leaders, li));
        && b.start == span.start && b.end == span.end && b.count == span.count
        && b.hasDelay == span.hasDelay && b.delay == span.delay
        && Sorted(b.succs) && forall a :: a in b.succs <==> a in Successors(exe, span))
  }

  /** The blocks are those of the decoded leaders, in order: `at[k]` is the leader of `blocks[k]`. */
  ghost predicate AreBlocks(exe: Exe, leaders: seq<int>, n: nat, blocks: seq<Block>, at: seq<nat>) {
    && |at| == |blocks|
    && (forall k :: 0 <= k < |at| ==> at[k] < n && IsBlock(exe, leaders, at[k], blocks[k]))
    && (forall j, k :: 0 <= j < k < |at| ==> at[j] < at[k])
    && (forall li :: 0 <= li < n && li < |leaders| && exe.Decoded(leaders[li]) ==> li in at)
  }

  method MakeBlock(exe: Exe, leaders: seq<int>, li: nat) returns (b: Block)
    requires exe.Valid() && Sorted(leaders) && li < |leaders| && exe.Decoded(leaders[li])
    ensures IsBlock(exe, leaders, li, b) && b.preds == []
  {
    var span := ScanBlock(exe, Idx(exe, leaders[li]), NextLeader(exe, leaders, li));
    var succs := SortedSeq(Successors(exe, span));
    b := span.(succs := succs);
  }

  method CollectBlocks(exe: Exe) returns (blocks: seq<Block>, leaders: seq<int>, ghost at: seq<nat>)
    requires exe.Valid()
    ensures Sorted(leaders) && forall a :: a in leaders <==> IsLeader(exe, a)
    ensures AreBlocks(exe, leaders, |leaders|, blocks, at)
    ensures forall k :: 0 <= k < |blocks| ==> blocks[k].preds == []
  {
    leaders := FindLeaders(exe);
    blocks, at := [], [];
    for li := 0 to |leaders|
      invariant AreBlocks(exe, leaders, li, blocks, at)
      invariant forall k :: 0 <= k < |blocks| ==> blocks[k].preds == []
    {
      if exe.Decoded(leaders[li]) {
        var b := MakeBlock(exe, leaders, li);
        BlockAppended(exe, leaders, li, blocks, at, b);
        blocks, at := blocks + [b], at + [li];
      } else {
        LeaderSkipped(exe, leaders, li, blocks, at);
      }
    }
  }

  lemma BlockAppended(exe: Exe, leaders: seq<int>, li: nat, blocks: seq<Block>, at: seq<nat>, b: Block)
    requires AreBlocks(exe, leaders, li, blocks, at) && IsBlock(exe, leaders, li, b)
    ensures AreBlocks(exe, leaders, li + 1, blocks + [b], at + [li])
  {
    var bs, as' := blocks + [b], at + [li];
    assert forall k :: 0 <= k < |at| ==> as'[k] == at[k] && bs[k] == blocks[k];
    assert as'[|at|] == li && bs[|at|] == b;
  }

  lemma LeaderSkipped(exe: Exe, leaders: seq<int>, li: nat, blocks: seq<Block>, at: seq<nat>)
    requires AreBlocks(exe, leaders, li, blocks, at) && li < |leaders| && !exe.Decoded(leaders[li])
    ensures AreBlocks(exe, leaders, li + 1, blocks, at)
  {}

  // ---- coverage and overlap ----

  ghost predicate Analyzed(exe: Exe, leaders: seq<int>, blocks: seq<Block>, at: seq<nat>) {
    && exe.Valid() && Sorted(leaders) && (forall a :: a in leaders <==> IsLeader(exe, a))
    && AreBlocks(exe, leaders, |leaders|, blocks, at)
  }

  /** Whole words: the size is a multiple of four, and so is the distance of every static
      target in the image from its start. The entry may lie anywhere. */
  ghost predicate Whole(exe: Exe) {
    && exe.size % 4 == 0
    && forall i :: 0 <= i < exe.N() && (exe.kinds[i].Branch? || exe.kinds[i].Jump? || exe.kinds[i].Call?)
         ==> (exe.kinds[i].target - exe.load) % 4 == 0
  }

  /** Decoded instructions at aligned addresses have aligned targets. */
  lemma DecoderAligns(pc: int, i: M.Instr)
    requires pc % 4 == 0
    ensures var k := KindOf(pc, i); k.Branch? || k.Jump? || k.Call? ==> k.target % 4 == 0
  {}

  /** So an image with aligned load address and size decodes to whole words. */
  lemma DecodedIsWhole(img: M.Image, entry: int)
    requires forall i :: 0 <= i < img.size / 4 ==> img.load + 4 * i in img.words
    requires img.load % 4 == 0 && img.size % 4 == 0
    ensures Whole(Decoded(img, entry))
  {
    var exe := Decoded(img, entry);
    forall i | 0 <= i < exe.N() && (exe.kinds[i].Branch? || exe.kinds[i].Jump? || exe.kinds[i].Call?)
      ensures (exe.kinds[i].target - exe.load) % 4 == 0
    {
      StepsAreAligned(img.load, i);
      DecoderAligns(img.load + 4 * i, img.words[img.load + 4 * i]);
      DistanceAligned(exe.kinds[i].target, exe.load);
    }
  }

  lemma StepsAreAligned(load: int, n: nat)
    requires load % 4 == 0
    ensures (load + 4 * n) % 4 == 0
  {}

  lemma DistanceAligned(a: int, b: int)
    requires a % 4 == 0 && b % 4 == 0
    ensures (a - b) % 4 == 0
  {}

  // ---- cuts ----

  /** Some leader lies inside the word at `i`. */
  ghost predicate Splits(exe: Exe, i: int) { exists a :: IsLeader(exe, a) && exe.Addr(i) < a < exe.Addr(i + 1) }

  /** Some block starts at or before the word at `i`. */
  ghost predicate Started(exe: Exe, i: int) { exists a :: IsLeader(exe, a) && exe.Decoded(a) && a <= exe.Addr(i) }

  /** An ordinary word with a leader inside it, which ends a block there but starts none,
      while the next word is no leader either. */
  ghost predicate Cut(exe: Exe, i: int) {
    && 0 <= i && i + 1 < exe.N() && !exe.Transfer(i) && !IsLeader(exe, exe.Addr(i + 1))
    && Splits(exe, i) && Started(exe, i)
  }

  ghost predicate Uncut(exe: Exe) { forall i :: !Cut(exe, i) }

  /** With whole words only the entry can cut; an entry at a word, or outside, does not. */
  lemma WholeIsUncut(exe: Exe)
    requires exe.Valid() && Whole(exe) && (exe.InImage(exe.entry) ==> exe.Decoded(exe.entry))
    ensures Uncut(exe)
  {
    forall i, a | 0 <= i && i + 1 < exe.N() && exe.Addr(i) < a < exe.Addr(i + 1) ensures !IsLeader(exe, a) {
      InsideWord(exe, i, a);
      forall j | 0 <= j < exe.N() ensures !LeaderFrom(exe, j, a) {}
    }
  }

  lemma InsideWord(exe: Exe, i: int, a: int)
    requires 0 <= i && exe.Addr(i) < a < exe.Addr(i + 1)
    ensures (a - exe.load) % 4 != 0
  {
    assert (a - exe.load) - 4 * i in {1, 2, 3};
  }

  /** The indices that delimit block `k`. */
  lemma BlockShape(exe: Exe, leaders: seq<int>, blocks: seq<Block>, at: seq<nat>, k: nat)
    returns (s: nat, t: nat, next: int)
    requires Analyzed(exe, leaders, blocks, at) && k < |blocks|
    ensures at[k] < |leaders| && exe.Decoded(leaders[at[k]])
    ensures s == Idx(exe, leaders[at[k]]) && s < exe.N() && next == NextLeader(exe, leaders, at[k])
    ensures t == Term(exe, s, next) && exe.Addr(t) < next && exe.Addr(s) == leaders[at[k]]
    ensures blocks[k].start == exe.Addr(s)
    ensures blocks[k].end == if exe.Transfer(t) && t + 1 < exe.N() then exe.Addr(t + 1) else exe.Addr(t)
    ensures blocks[k].hasDelay == exe.Transfer(t)
    ensures blocks[k].delay == if exe.Transfer(t) && t + 1 < exe.N() then exe.Addr(t + 1) else 0
  {
    assert IsBlock(exe, leaders, at[k], blocks[k]);
    s := Idx(exe, leaders[at[k]]);
    next := NextLeader(exe, leaders, at[k]);
    t := Term(exe, s, next);
  }

  /** A block counts the words from its start to its end. */
  lemma BlockCounts(exe: Exe, leaders: seq<int>, blocks: seq<Block>, at: seq<nat>, k: nat)
    requires Analyzed(exe, leaders, blocks, at) && k < |blocks|
    ensures blocks[k].count >= 1 && blocks[k].end == blocks[k].start + 4 * (blocks[k].count - 1)
    ensures blocks[k].hasDelay && blocks[k].count >= 2 && blocks[k].delay != 0 ==> blocks[k].delay == blocks[k].end
  {
    var s, t, next := BlockShape(exe, leaders, blocks, at, k);
    assert IsBlock(exe, leaders, at[k], blocks[k]);
  }

  /** Two blocks share an address only where the delay slot of the first starts the second. */
  lemma OverlapIsDelaySlot(exe: Exe, leaders: seq<int>, blocks: seq<Block>, at: seq<nat>, j: nat, k: nat, a: int)
    requires Analyzed(exe, leaders, blocks, at) && j < k < |blocks|
    requires exe.Decoded(a) && blocks[j].Contains(a) && blocks[k].Contains(a)
    ensures blocks[j].hasDelay && a == blocks[j].delay == blocks[k].start
  {
    var s, t, next := BlockShape(exe, leaders, blocks, at, j);
    var s', t', next' := BlockShape(exe, leaders, blocks, at, k);
    assert at[j] < at[k] && leaders[at[j] + 1] <= leaders[at[k]] by {
      assert at[j] + 1 == at[k] || leaders[at[j] + 1] < leaders[at[k]];
    }
    assert exe.Addr(t) < exe.Addr(s');
  }

  /** The greatest leader at or below `a` that starts a block. */
  lemma {:induction false} LastLeader(exe: Exe, leaders: seq<int>, a: int, n: nat) returns (li: nat)
    requires n <= |leaders| && exists l :: 0 <= l < n && leaders[l] <= a && exe.Decoded(leaders[l])
    ensures li < n && leaders[li] <= a && exe.Decoded(leaders[li])
    ensures forall l :: li < l < n ==> !(leaders[l] <= a && exe.Decoded(leaders[l]))
    decreases n
  {
    if leaders[n - 1] <= a && exe.Decoded(leaders[n - 1]) { return n - 1; }
    li := LastLeader(exe, leaders, a, n - 1);
  }

  /** Without cuts every instruction from the first block start on is in a block. */
  lemma EveryInstructionCovered(exe: Exe, leaders: seq<int>, blocks: seq<Block>, at: seq<nat>, i: nat) returns (k: nat)
    requires Analyzed(exe, leaders, blocks, at) && Uncut(exe) && i < exe.N() && Started(exe, i)
    ensures k < |blocks| && blocks[k].Contains(exe.Addr(i))
  {
    var li, s, t, next;
    li, k, s, t, next := LastBlock(exe, leaders, blocks, at, i);
    NoGap(exe, leaders, li, s, t, next, i);
  }

  /** The last block that starts at or before the word at `i`. */
  lemma LastBlock(exe: Exe, leaders: seq<int>, blocks: seq<Block>, at: seq<nat>, i: nat)
    returns (li: nat, k: nat, s: nat, t: nat, next: int)
    requires Analyzed(exe, leaders, blocks, at) && i < exe.N() && Started(exe, i)
    ensures li < |leaders| && k < |blocks| && at[k] == li && exe.Decoded(leaders[li])
    ensures s < exe.N() && next == NextLeader(exe, leaders, li) && t == Term(exe, s, next) && s == Idx(exe, leaders[li])
    ensures blocks[k].start == exe.Addr(s) == leaders[li] <= exe.Addr(i) && exe.Addr(t) < next
    ensures blocks[k].end == if exe.Transfer(t) && t + 1 < exe.N() then exe.Addr(t + 1) else exe.Addr(t)
    ensures blocks[k].hasDelay == exe.Transfer(t)
    ensures NoneLater(exe, leaders, li, i)
  {
    var a :| IsLeader(exe, a) && exe.Decoded(a) && a <= exe.Addr(i);
    assert a in leaders;
    li := LastLeader(exe, leaders, exe.Addr(i), |leaders|);
    assert li in at;
    k :| 0 <= k < |at| && at[k] == li;
    s, t, next := BlockShape(exe, leaders, blocks, at, k);
  }

  ghost predicate NoneLater(exe: Exe, leaders: seq<int>, li: nat, i: nat) {
    forall l :: li < l < |leaders| ==> !(leaders[l] <= exe.Addr(i) && exe.Decoded(leaders[l]))
  }

  /** A decoded leader up to the word at `i` is not beyond the last one. */
  lemma NotLater(exe: Exe, leaders: seq<int>, li: nat, i: nat, a: int)
    requires Sorted(leaders) && (forall x :: x in leaders <==> IsLeader(exe, x)) && li < |leaders|
    requires NoneLater(exe, leaders, li, i)
    requires exe.Decoded(a) && leaders[li] < a <= exe.Addr(i)
    ensures !IsLeader(exe, a)
  {
    forall l | 0 <= l < |leaders| ensures leaders[l] != a {}
  }

  lemma WordDecoded(exe: Exe, i: int)
    requires 0 <= i < exe.N()
    ensures exe.Decoded(exe.Addr(i)) && Idx(exe, exe.Addr(i)) == i
  {}

  /** Nothing lies between the end of a block and the next leader that starts one. */
  lemma NoGap(exe: Exe, leaders: seq<int>, li: nat, s: nat, t: nat, next: int, i: nat)
    requires exe.Valid() && Sorted(leaders) && (forall a :: a in leaders <==> IsLeader(exe, a)) && Uncut(exe)
    requires li < |leaders| && s < exe.N() && i < exe.N() && next == NextLeader(exe, leaders, li)
    requires t == Term(exe, s, next)
    requires exe.Decoded(leaders[li]) && exe.Addr(s) == leaders[li] <= exe.Addr(i) && exe.Addr(t) < next
    requires NoneLater(exe, leaders, li, i)
    ensures i <= t || (exe.Transfer(t) && i == t + 1)
  {
    if i > t && !(exe.Transfer(t) && i == t + 1) {
      var u := if exe.Transfer(t) then t + 2 else t + 1;
      WordDecoded(exe, u);
      NotLater(exe, leaders, li, i, exe.Addr(u));
      if exe.Transfer(t) {
        assert LeaderFrom(exe, t, exe.Addr(u));
      } else {
        NextIsLeader(exe, leaders, li, t);
      }
    }
  }

  /** Straight-line code without a cut ends a block only before a leader. */
  lemma NextIsLeader(exe: Exe, leaders: seq<int>, li: nat, t: nat)
    requires exe.Valid() && Sorted(leaders) && (forall a :: a in leaders <==> IsLeader(exe, a)) && !Cut(exe, t)
    requires li < |leaders| && exe.Decoded(leaders[li]) && leaders[li] <= exe.Addr(t)
    requires t + 1 < exe.N() && !exe.Transfer(t) && exe.Addr(t) < NextLeader(exe, leaders, li) <= exe.Addr(t + 1)
    ensures IsLeader(exe, exe.Addr(t + 1))
  {
    var next := NextLeader(exe, leaders, li);
    assert exe.Addr(t + 1) < exe.End();
    assert next in leaders && leaders[li] in leaders;
    if next != exe.Addr(t + 1) { assert Splits(exe, t) && Started(exe, t); }
  }

  /** A block that starts before leader `a` has its body before it. */
  lemma BodyBefore(exe: Exe, leaders: seq<int>, blocks: seq<Block>, at: seq<nat>, k: nat, a: int) returns (t: nat)
    requires Analyzed(exe, leaders, blocks, at) && k < |blocks| && IsLeader(exe, a) && blocks[k].start < a
    ensures t < exe.N() && exe.Addr(t) < a
    ensures blocks[k].end == if exe.Transfer(t) && t + 1 < exe.N() then exe.Addr(t + 1) else exe.Addr(t)
  {
    var s, next;
    s, t, next := BlockShape(exe, leaders, blocks, at, k);
    NextUpTo(exe, leaders, at[k], a);
  }

  /** A body that ends before an address inside the ordinary word `i` ends by that word. */
  lemma EndsInTime(exe: Exe, t: nat, a: int, i: nat)
    requires t < exe.N() && i < exe.N() && !exe.Transfer(i) && exe.Addr(t) < a < exe.Addr(i + 1)
    ensures exe.Addr(t) <= exe.Addr(i) && (exe.Transfer(t) ==> exe.Addr(t + 1) <= exe.Addr(i))
  {}

  lemma NotBetween(exe: Exe, i: nat, a: int)
    requires exe.Decoded(a) && exe.Addr(i) < a <= exe.Addr(i + 1)
    ensures a == exe.Addr(i + 1)
  {}

  /** The word behind a cut is in no block. */
  lemma CutUncovered(exe: Exe, leaders: seq<int>, blocks: seq<Block>, at: seq<nat>, i: nat, k: nat)
    requires Analyzed(exe, leaders, blocks, at) && Cut(exe, i) && k < |blocks|
    ensures !blocks[k].Contains(exe.Addr(i + 1))
  {
    var a :| IsLeader(exe, a) && exe.Addr(i) < a < exe.Addr(i + 1);
    if blocks[k].start < a {
      var t := BodyBefore(exe, leaders, blocks, at, k, a);
      EndsInTime(exe, t, a, i);
    } else if blocks[k].start <= exe.Addr(i + 1) {
      StartIsLeader(exe, leaders, blocks, at, blocks[k].start);
      NotBetween(exe, i, blocks[k].start);
    }
  }

  lemma NextUpTo(exe: Exe, leaders: seq<int>, li: nat, a: int)
    requires Sorted(leaders) && li < |leaders| && a in leaders && leaders[li] < a
    ensures NextLeader(exe, leaders, li) <= a
  {
    var l :| 0 <= l < |leaders| && leaders[l] == a;
  }

  /** Every instruction from the first block start on is in a block if and only if the image
      has no cut. */
  lemma CoveredIff(exe: Exe, leaders: seq<int>, blocks: seq<Block>, at: seq<nat>)
    requires Analyzed(exe, leaders, blocks, at)
    ensures (forall i :: 0 <= i < exe.N() && Started(exe, i) ==>
               exists k :: 0 <= k < |blocks| && blocks[k].Contains(exe.Addr(i)))
       <==> Uncut(exe)
  {
    if Uncut(exe) {
      forall i | 0 <= i < exe.N() && Started(exe, i)
        ensures exists k :: 0 <= k < |blocks| && blocks[k].Contains(exe.Addr(i))
      {
        var k := EveryInstructionCovered(exe, leaders, blocks, at, i);
      }
    } else {
      var i :| Cut(exe, i);
      forall k: nat | k < |blocks|
        ensures !blocks[k].Contains(exe.Addr(i + 1))
      {
        CutUncovered(exe, leaders, blocks, at, i, k);
      }
      StartedOn(exe, i);
    }
  }

  lemma StartedOn(exe: Exe, i: int)
    requires Started(exe, i)
    ensures Started(exe, i + 1)
  {
    var a :| IsLeader(exe, a) && exe.Decoded(a) && a <= exe.Addr(i);
  }

  /** At the first cut behind the last block start, a block ends and falls through to a
      word that starts none. */
  lemma CutOpens(exe: Exe, leaders: seq<int>, blocks: seq<Block>, at: seq<nat>, i: nat) returns (k: nat, t: nat)
    requires Analyzed(exe, leaders, blocks, at) && Cut(exe, i)
    ensures k < |blocks| && t + 1 < exe.N() && !exe.Transfer(t) && !IsLeader(exe, exe.Addr(t + 1))
    ensures blocks[k].start <= blocks[k].end == exe.Addr(t) && !blocks[k].hasDelay && exe.Addr(t + 1) in blocks[k].succs
  {
    var li, s, next;
    li, k, s, t, next := LastBlock(exe, leaders, blocks, at, i);
    var a :| IsLeader(exe, a) && exe.Addr(i) < a < exe.Addr(i + 1);
    NextUpTo(exe, leaders, li, a);
    assert t <= i;
    CutEnds(exe, leaders, li, s, t, next, i);
    EdgesOf(exe, leaders, blocks, at, k, s, t, next, exe.Addr(t + 1));
  }

  lemma CutEnds(exe: Exe, leaders: seq<int>, li: nat, s: nat, t: nat, next: int, i: nat)
    requires exe.Valid() && Sorted(leaders) && (forall a :: a in leaders <==> IsLeader(exe, a)) && Cut(exe, i)
    requires li < |leaders| && s <= t <= i && exe.Addr(s) == leaders[li] && NoneLater(exe, leaders, li, i)
    ensures !exe.Transfer(t) && !IsLeader(exe, exe.Addr(t + 1))
  {
    if exe.Transfer(t) {
      assert LeaderFrom(exe, t, exe.Addr(t + 2));
      WordDecoded(exe, t + 2);
      if t + 2 <= i { NotLater(exe, leaders, li, i, exe.Addr(t + 2)); }
    } else if t < i {
      WordDecoded(exe, t + 1);
      NotLater(exe, leaders, li, i, exe.Addr(t + 1));
    }
  }

  /** A decoded leader starts a block. */
  lemma LeaderAt(exe: Exe, leaders: seq<int>, a: int) returns (l: nat)
    requires (forall x :: x in leaders <==> IsLeader(exe, x)) && IsLeader(exe, a)
    ensures l < |leaders| && leaders[l] == a
  {
    assert a in leaders;
    l :| 0 <= l < |leaders| && leaders[l] == a;
  }

  // ---- successor edges ----

  ghost predicate IsStart(blocks: seq<Block>, a: int) { exists k :: 0 <= k < |blocks| && blocks[k].start == a }

  lemma StartIsLeader(exe: Exe, leaders: seq<int>, blocks: seq<Block>, at: seq<nat>, a: int)
    requires Analyzed(exe, leaders, blocks, at) && IsStart(blocks, a)
    ensures IsLeader(exe, a) && exe.Decoded(a)
  {
    var k :| 0 <= k < |blocks| && blocks[k].start == a;
    var s, t, next := BlockShape(exe, leaders, blocks, at, k);
    assert leaders[at[k]] in leaders;
  }

  lemma LeaderStartsBlock(exe: Exe, leaders: seq<int>, blocks: seq<Block>, at: seq<nat>, a: int) returns (k: nat)
    requires Analyzed(exe, leaders, blocks, at) && IsLeader(exe, a) && exe.Decoded(a)
    ensures k < |blocks| && blocks[k].start == a
  {
    var l := LeaderAt(exe, leaders, a);
    assert l in at;
    k :| 0 <= k < |at| && at[k] == l;
    var s, t, next := BlockShape(exe, leaders, blocks, at, k);
  }

  /** A transfer in the last word has no delay slot in the image. */
  ghost predicate CutOff(exe: Exe, t: int)
    requires 0 <= t < exe.N()
  {
    exe.Transfer(t) && t + 1 == exe.N()
  }

  /** The successors of a block with body `s..t`, case by case. */
  ghost predicate Leads(exe: Exe, s: nat, t: nat, a: int)
    requires s <= t < exe.N()
  {
    if exe.Transfer(t) && (!CutOff(exe, t) || s == t) then
      || ((exe.kinds[t].Branch? || exe.kinds[t].Call?)
          && (if CutOff(exe, t) then a == 4 else a == exe.Addr(t + 2) && a < exe.End()))
      || ((exe.kinds[t].Branch? || exe.kinds[t].Jump?) && a == exe.kinds[t].target && exe.InImage(a))
    else a == exe.Addr(t + 1) && a < exe.End()
  }

  lemma SpanEdges(exe: Exe, s: nat, next: int, a: int)
    requires exe.Valid() && s < exe.N()
    ensures a in Successors(exe, Span(exe, s, next)) <==> Leads(exe, s, Term(exe, s, next), a)
  {}

  /** What the successor list of a block holds. */
  lemma EdgesOf(exe: Exe, leaders: seq<int>, blocks: seq<Block>, at: seq<nat>, k: nat, s: nat, t: nat, next: int,
                a: int)
    requires Analyzed(exe, leaders, blocks, at) && k < |blocks|
    requires at[k] < |leaders| && exe.Decoded(leaders[at[k]]) && s == Idx(exe, leaders[at[k]])
    requires s < exe.N() && next == NextLeader(exe, leaders, at[k]) && t == Term(exe, s, next)
    ensures a in blocks[k].succs <==> Leads(exe, s, t, a)
  {
    assert IsBlock(exe, leaders, at[k], blocks[k]);
    SpanEdges(exe, s, next, a);
  }

  /** The last word is a conditional branch or a direct call, and starts a block of its own. */
  ghost predicate BadTail(exe: Exe) {
    var n := exe.N() - 1;
    n >= 0 && (exe.kinds[n].Branch? || exe.kinds[n].Call?) && IsLeader(exe, exe.Addr(n))
  }

  /** A static target in the image is a leader. */
  lemma TargetIsLeader(exe: Exe, t: nat, a: int)
    requires exe.Valid() && t < exe.N() && exe.InImage(a)
    requires (exe.kinds[t].Branch? || exe.kinds[t].Jump? || exe.kinds[t].Call?) && a == exe.kinds[t].target
    ensures IsLeader(exe, a)
  {
    assert LeaderFrom(exe, t, a);
  }

  /** The decoded successors of a transfer are leaders. */
  lemma TransferLeads(exe: Exe, s: nat, t: nat, a: int)
    requires exe.Valid() && s <= t < exe.N() && exe.Transfer(t) && Leads(exe, s, t, a) && exe.Decoded(a)
    ensures IsLeader(exe, a)
  {
    assert exe.InImage(a);
    if !CutOff(exe, t) && a == exe.Addr(t + 2) && a < exe.End() { assert LeaderFrom(exe, t, a); }
    else { TargetIsLeader(exe, t, a); }
  }

  /** Without cuts a decoded successor is a leader. */
  lemma EdgeLeads(exe: Exe, leaders: seq<int>, blocks: seq<Block>, at: seq<nat>, k: nat, a: int)
    requires Analyzed(exe, leaders, blocks, at) && Uncut(exe) && k < |blocks| && a in blocks[k].succs && exe.Decoded(a)
    ensures IsLeader(exe, a)
  {
    var s, t, next := BlockShape(exe, leaders, blocks, at, k);
    EdgesOf(exe, leaders, blocks, at, k, s, t, next, a);
    if exe.Transfer(t) {
      TransferLeads(exe, s, t, a);
    } else {
      assert a == exe.Addr(t + 1) && t + 1 < exe.N();
      NextIsLeader(exe, leaders, at[k], t);
    }
  }

  /** Every successor that is a decoded address is a block start if and only if the image
      has no cut. */
  lemma DecodedEdgesIff(exe: Exe, leaders: seq<int>, blocks: seq<Block>, at: seq<nat>)
    requires Analyzed(exe, leaders, blocks, at)
    ensures (forall k, a :: 0 <= k < |blocks| && a in blocks[k].succs && exe.Decoded(a) ==> IsStart(blocks, a))
       <==> Uncut(exe)
  {
    if Uncut(exe) {
      forall k, a | 0 <= k < |blocks| && a in blocks[k].succs && exe.Decoded(a) ensures IsStart(blocks, a) {
        EdgeLeads(exe, leaders, blocks, at, k, a);
        var j := LeaderStartsBlock(exe, leaders, blocks, at, a);
      }
    } else {
      var i :| Cut(exe, i);
      var k, a := CutIsOpen(exe, leaders, blocks, at, i);
    }
  }

  lemma CutIsOpen(exe: Exe, leaders: seq<int>, blocks: seq<Block>, at: seq<nat>, i: nat) returns (k: nat, a: int)
    requires Analyzed(exe, leaders, blocks, at) && Cut(exe, i)
    ensures k < |blocks| && a in blocks[k].succs && exe.Decoded(a) && !IsStart(blocks, a)
  {
    var t;
    k, t := CutOpens(exe, leaders, blocks, at, i);
    a := exe.Addr(t + 1);
    WordDecoded(exe, t + 1);
    NotStart(exe, leaders, blocks, at, a);
  }

  lemma NotStart(exe: Exe, leaders: seq<int>, blocks: seq<Block>, at: seq<nat>, a: int)
    requires Analyzed(exe, leaders, blocks, at) && !IsLeader(exe, a)
    ensures !IsStart(blocks, a)
  {
    if IsStart(blocks, a) { StartIsLeader(exe, leaders, blocks, at, a); }
  }

  /** In an image of whole words a successor is decoded, unless it is the 4 of a bad tail. */
  lemma SuccessorDecoded(exe: Exe, leaders: seq<int>, blocks: seq<Block>, at: seq<nat>, k: nat, a: int)
    requires Analyzed(exe, leaders, blocks, at) && Whole(exe) && !BadTail(exe) && k < |blocks| && a in blocks[k].succs
    ensures exe.Decoded(a)
  {
    var s, t, next := BlockShape(exe, leaders, blocks, at, k);
    EdgesOf(exe, leaders, blocks, at, k, s, t, next, a);
    assert leaders[at[k]] in leaders;
    SuccessorOnGrid(exe, s, t, a);
    OnGridDecoded(exe, a);
  }

  lemma SuccessorOnGrid(exe: Exe, s: nat, t: nat, a: int)
    requires exe.Valid() && Whole(exe) && !BadTail(exe) && s <= t < exe.N() && IsLeader(exe, exe.Addr(s))
    requires Leads(exe, s, t, a)
    ensures exe.InImage(a) && (a - exe.load) % 4 == 0
  {}

  lemma OnGridDecoded(exe: Exe, a: int)
    requires exe.Valid() && exe.size % 4 == 0 && exe.InImage(a) && (a - exe.load) % 4 == 0
    ensures exe.Decoded(a)
  {}

  /** In an image of whole words every successor is a block start if and only if there is no
      cut and the image does not end in a lone branch or call; there the analyser records
      the successor 4. */
  lemma ClosedIff(exe: Exe, leaders: seq<int>, blocks: seq<Block>, at: seq<nat>)
    requires Analyzed(exe, leaders, blocks, at) && Whole(exe)
    ensures (forall k, a :: 0 <= k < |blocks| && a in blocks[k].succs ==> IsStart(blocks, a))
       <==> !BadTail(exe) && Uncut(exe)
  {
    DecodedEdgesIff(exe, leaders, blocks, at);
    if BadTail(exe) {
      TailIsOpen(exe, leaders, blocks, at);
    } else {
      forall k, a | 0 <= k < |blocks| && a in blocks[k].succs ensures exe.Decoded(a) {
        SuccessorDecoded(exe, leaders, blocks, at, k, a);
      }
    }
  }

  lemma TailIsOpen(exe: Exe, leaders: seq<int>, blocks: seq<Block>, at: seq<nat>)
    requires Analyzed(exe, leaders, blocks, at) && BadTail(exe)
    ensures exists k :: 0 <= k < |blocks| && 4 in blocks[k].succs && !IsStart(blocks, 4)
  {
    var n := exe.N() - 1;
    WordDecoded(exe, n);
    var k := LeaderStartsBlock(exe, leaders, blocks, at, exe.Addr(n));
    var s, t, next := BlockShape(exe, leaders, blocks, at, k);
    EdgesOf(exe, leaders, blocks, at, k, s, t, next, 4);
    assert 4 in blocks[k].succs;
    if IsStart(blocks, 4) { StartIsLeader(exe, leaders, blocks, at, 4); }
  }

  // ---- an entry that cuts ----

  /** `j +8; nop; nop; nop; nop` with its entry inside the fourth word. */
  function MidWord(): Exe {
    Exe(0x8001_0000, 0x8001_000E, 20, [Jump(0x8001_0008), Plain, Plain, Plain, Plain])
  }

  lemma MidWordLeaders()
    ensures forall a :: IsLeader(MidWord(), a) <==> a in {0x8001_0008, 0x8001_000E}
  {
    var exe := MidWord();
    assert exe.kinds[0] == Jump(0x8001_0008) && forall i :: 0 < i < 5 ==> exe.kinds[i] == Plain;
    assert LeaderFrom(exe, 0, 0x8001_0008);
    forall j, a | 0 <= j < exe.N() && LeaderFrom(exe, j, a) ensures a == 0x8001_0008 {}
  }

  /** A valid image of whole words that its entry cuts. */
  lemma MidWordCut()
    ensures MidWord().Valid() && Whole(MidWord()) && Cut(MidWord(), 3)
  {
    var exe := MidWord();
    MidWordLeaders();
    WordDecoded(exe, 2);
    assert IsLeader(exe, exe.Addr(2)) && Started(exe, 3);
    assert IsLeader(exe, exe.Addr(3) + 2) && Splits(exe, 3);
    assert !IsLeader(exe, exe.Addr(4)) && exe.kinds[3] == Plain;
  }

  /** Its last word is in no block. */
  lemma EntryCuts(leaders: seq<int>, blocks: seq<Block>, at: seq<nat>, k: nat)
    requires Analyzed(MidWord(), leaders, blocks, at) && k < |blocks|
    ensures !blocks[k].Contains(MidWord().Addr(4))
  {
    MidWordCut();
    CutUncovered(MidWord(), leaders, blocks, at, 3, k);
  }

  // ---- reversed edges ----

  ghost predicate StartsSorted(blocks: seq<Block>) {
    forall j, k :: 0 <= j < k < |blocks| ==> blocks[j].start < blocks[k].start
  }

  /** The predecessors recorded for the block at `a`, after the blocks before `n`. */
  ghost predicate Reversed(blocks: seq<Block>, n: nat, a: int, preds: seq<int>) {
    Sorted(preds) && forall p :: p in preds <==> exists j :: 0 <= j < n && LeadsTo(blocks, j, p, a)
  }

  /** Block `j` starts at `p` and lists `a` as a successor. */
  predicate LeadsTo(blocks: seq<Block>, j: int, p: int, a: int) {
    0 <= j < |blocks| && blocks[j].start == p && a in blocks[j].succs
  }

  /** Reversing the successor edges: for each block, the starts of the blocks that list
      it as a successor, in ascending order and without repetition. */
  method BuildPredecessors(blocks: seq<Block>) returns (out: seq<Block>)
    requires StartsSorted(blocks) && forall k :: 0 <= k < |blocks| ==> blocks[k].preds == [] && Sorted(blocks[k].succs)
    ensures |out| == |blocks|
    ensures forall k :: 0 <= k < |blocks| ==>
              out[k] == blocks[k].(preds := out[k].preds) && Reversed(blocks, |blocks|, blocks[k].start, out[k].preds)
  {
    out := blocks;
    for i := 0 to |blocks|
      invariant |out| == |blocks|
      invariant forall k :: 0 <= k < |blocks| ==>
                  out[k] == blocks[k].(preds := out[k].preds) && Reversed(blocks, i, blocks[k].start, out[k].preds)
    {
      out := AddPredecessor(blocks, out, i);
    }
  }

  /** Adds block `i` to the predecessors of each of its successors. */
  method AddPredecessor(blocks: seq<Block>, before: seq<Block>, i: nat) returns (out: seq<Block>)
    requires StartsSorted(blocks) && |before| == |blocks| && i < |blocks| && Sorted(blocks[i].succs)
    requires forall k :: 0 <= k < |blocks| ==>
               before[k] == blocks[k].(preds := before[k].preds)
               && Reversed(blocks, i, blocks[k].start, before[k].preds)
    ensures |out| == |blocks|
    ensures forall k :: 0 <= k < |blocks| ==>
              out[k] == blocks[k].(preds := out[k].preds) && Reversed(blocks, i + 1, blocks[k].start, out[k].preds)
  {
    out := before;
    var p, succs := blocks[i].start, blocks[i].succs;
    for m := 0 to |succs|
      invariant |out| == |blocks|
      invariant forall k :: 0 <= k < |blocks| ==>
                  out[k] == before[k].(preds := before[k].preds + if blocks[k].start in succs[..m] then [p] else [])
    {
      assert succs[..m + 1] == succs[..m] + [succs[m]] && succs[m] !in succs[..m];
      var j := Lookup(out, succs[m]);
      if j < |out| { out := out[j := out[j].(preds := out[j].preds + [p])]; }
    }
    assert succs[..|succs|] == succs;
    forall k | 0 <= k < |blocks| ensures Reversed(blocks, i + 1, blocks[k].start, out[k].preds) {
      ReversedNext(blocks, i, blocks[k].start, before[k].preds);
    }
  }

  lemma ReversedNext(blocks: seq<Block>, i: nat, a: int, preds: seq<int>)
    requires StartsSorted(blocks) && i < |blocks| && Reversed(blocks, i, a, preds)
    ensures Reversed(blocks, i + 1, a, preds + if a in blocks[i].succs then [blocks[i].start] else [])
  {
    forall q | q in preds ensures q < blocks[i].start {
      var j :| 0 <= j < i && LeadsTo(blocks, j, q, a);
    }
    var all := preds + if a in blocks[i].succs then [blocks[i].start] else [];
    assert Sorted(all) by { assert forall x :: 0 <= x < |preds| ==> preds[x] in preds; }
    forall p | p in all ensures exists j :: 0 <= j < i + 1 && LeadsTo(blocks, j, p, a) {
      if p in preds { var j :| 0 <= j < i && LeadsTo(blocks, j, p, a); } else { assert LeadsTo(blocks, i, p, a); }
    }
    forall j, p | 0 <= j < i + 1 && LeadsTo(blocks, j, p, a) ensures p in all {
      if j < i { assert p in preds; } else { assert all[|preds|] == p; }
    }
  }

  /** The index of the block that starts at `a`, or the number of blocks. */
  method Lookup(blocks: seq<Block>, a: int) returns (j: nat)
    ensures j <= |blocks| && (j < |blocks| ==> blocks[j].start == a)
    ensures j == |blocks| ==> forall k :: 0 <= k < |blocks| ==> blocks[k].start != a
  {
    j := 0;
    while j < |blocks| && blocks[j].start != a
      invariant 0 <= j <= |blocks| && forall k :: 0 <= k < j ==> blocks[k].start != a
    {
      j := j + 1;
    }
  }

  /** The whole analysis: blocks with their successor and predecessor edges. */
  method Analyze(exe: Exe) returns (blocks: seq<Block>, leaders: seq<int>, ghost at: seq<nat>)
    requires exe.Valid()
    ensures Analyzed(exe, leaders, blocks, at)
    ensures forall k :: 0 <= k < |blocks| ==> Reversed(blocks, |blocks|, blocks[k].start, blocks[k].preds)
  {
    var bare;
    bare, leaders, at := CollectBlocks(exe);
    SortedBlocks(exe, leaders, bare, at);
    blocks := BuildPredecessors(bare);
    SameEdges(exe, leaders, bare, blocks, at);
  }

  lemma SortedBlocks(exe: Exe, leaders: seq<int>, blocks: seq<Block>, at: seq<nat>)
    requires Analyzed(exe, leaders, blocks, at)
    ensures StartsSorted(blocks) && forall k :: 0 <= k < |blocks| ==> Sorted(blocks[k].succs)
  {
    forall k | 0 <= k < |blocks| ensures blocks[k].start == leaders[at[k]] && Sorted(blocks[k].succs) {
      assert IsBlock(exe, leaders, at[k], blocks[k]);
      var s, t, next := BlockShape(exe, leaders, blocks, at, k);
    }
  }

  /** Filling in predecessors changes nothing else. */
  lemma SameEdges(exe: Exe, leaders: seq<int>, bare: seq<Block>, blocks: seq<Block>, at: seq<nat>)
    requires Analyzed(exe, leaders, bare, at) && |blocks| == |bare|
    requires forall k :: 0 <= k < |bare| ==>
               blocks[k] == bare[k].(preds := blocks[k].preds) && Reversed(bare, |bare|, bare[k].start, blocks[k].preds)
    ensures Analyzed(exe, leaders, blocks, at)
    ensures forall k :: 0 <= k < |blocks| ==> Reversed(blocks, |blocks|, blocks[k].start, blocks[k].preds)
  {
    forall k | 0 <= k < |at|
      ensures IsBlock(exe, leaders, at[k], blocks[k])
    {
      assert IsBlock(exe, leaders, at[k], bare[k]);
    }
    assert forall j, p, a :: LeadsTo(blocks, j, p, a) <==> LeadsTo(bare, j, p, a);
  }

  // ---- looking up an address ----

  /** The block that starts at `a`, else the first that contains it. */
  method FindBlock(blocks: seq<Block>, a: int) returns (j: nat)
    ensures j <= |blocks| && (j < |blocks| ==> blocks[j].start == a || (blocks[j].Contains(a) && !IsStart(blocks, a)))
    ensures j == |blocks| ==> forall k :: 0 <= k < |blocks| ==> !blocks[k].Contains(a) && blocks[k].start != a
  {
    j := Lookup(blocks, a);
    if j < |blocks| { return; }
    j := 0;
    while j < |blocks| && !blocks[j].Contains(a)
      invariant 0 <= j <= |blocks| && forall k :: 0 <= k < j ==> !blocks[k].Contains(a)
    {
      j := j + 1;
    }
  }

  /** An address that starts no block lies in at most one. */
  lemma ContainingBlockUnique(exe: Exe, leaders: seq<int>, blocks: seq<Block>, at: seq<nat>, j: nat, k: nat, a: int)
    requires Analyzed(exe, leaders, blocks, at) && j < |blocks| && k < |blocks| && exe.Decoded(a)
    requires blocks[j].Contains(a) && blocks[k].Contains(a) && !IsStart(blocks, a)
    ensures j == k
  {
    if j < k { OverlapIsDelaySlot(exe, leaders, blocks, at, j, k, a); }
    if k < j { OverlapIsDelaySlot(exe, leaders, blocks, at, k, j, a); }
  }

  // ---- the graph simulates execution ----

  /** A delayed-branch machine: the instruction to execute and the one after it.
      `Stop` follows the delay slot of an indirect jump. */
  datatype Npc = At(a: int) | Stop
  datatype Machine = Machine(pc: int, npc: Npc)

  /** Calls are taken to return; conditional branches may go either way. */
  ghost predicate MachineStep(exe: Exe, m: Machine, m': Machine) {
    && exe.Decoded(m.pc) && m.npc.At? && m'.pc == m.npc.a
    && match exe.kinds[Idx(exe, m.pc)]
       case Plain => m'.npc == At(m.npc.a + 4)
       case Call(_) => m'.npc == At(m.npc.a + 4)
       case Branch(t) => m'.npc == At(m.npc.a + 4) || m'.npc == At(t)
       case Jump(t) => m'.npc == At(t)
       case _ => m'.npc == Stop
  }

  ghost predicate Execution(exe: Exe, run: seq<Machine>) {
    run != [] && forall i, j :: 0 <= i && j == i + 1 < |run| ==> MachineStep(exe, run[i], run[j])
  }

  /** The machine is inside block `b`: in its body, or in its delay slot about to follow an edge. */
  ghost predicate Inside(exe: Exe, b: Block, m: Machine) {
    && exe.Decoded(m.pc) && b.Contains(m.pc)
    && if b.hasDelay && m.pc == b.delay
       then m.npc.At? && exe.InImage(m.npc.a) ==> m.npc.a in b.succs
       else m.npc == At(m.pc + 4)
  }

  /** The machine is about to execute a transfer in the delay slot of the block's own
      transfer, which the R3000A leaves undefined. */
  predicate Undefined(exe: Exe, b: Block, m: Machine)
    requires exe.Decoded(m.pc)
  {
    b.hasDelay && m.pc == b.delay && exe.Transfer(Idx(exe, m.pc))
  }

  /** A step that is not the block's last: through the body, or into the delay slot. */
  lemma StepInBlock(exe: Exe, leaders: seq<int>, blocks: seq<Block>, at: seq<nat>, k: nat, m: Machine, m': Machine,
                    t: nat)
    requires Analyzed(exe, leaders, blocks, at) && k < |blocks|
    requires at[k] < |leaders| && exe.Decoded(leaders[at[k]]) && Idx(exe, leaders[at[k]]) < exe.N()
    requires t == Term(exe, Idx(exe, leaders[at[k]]), NextLeader(exe, leaders, at[k]))
    requires Inside(exe, blocks[k], m) && MachineStep(exe, m, m') && exe.Decoded(m'.pc)
    requires Idx(exe, m.pc) < t || (Idx(exe, m.pc) == t && exe.Transfer(t))
    ensures Inside(exe, blocks[k], m') && m.pc != blocks[k].end && m'.pc == m.pc + 4
  {
    var s, t', next := BlockShape(exe, leaders, blocks, at, k);
    var i := Idx(exe, m.pc);
    assert m.pc == exe.Addr(i) && m'.pc == exe.Addr(i + 1);
    if i < t {
      assert !exe.Transfer(i);
    } else {
      EdgesOf(exe, leaders, blocks, at, k, s, t, next, exe.Addr(t + 2));
      if exe.kinds[t].Branch? || exe.kinds[t].Jump? {
        EdgesOf(exe, leaders, blocks, at, k, s, t, next, exe.kinds[t].target); }
    }
  }

  /** Falling off the end of straight-line code. */
  lemma StepFall(exe: Exe, leaders: seq<int>, blocks: seq<Block>, at: seq<nat>, k: nat, m: Machine, m': Machine, t: nat)
    requires Analyzed(exe, leaders, blocks, at) && k < |blocks|
    requires at[k] < |leaders| && exe.Decoded(leaders[at[k]]) && Idx(exe, leaders[at[k]]) < exe.N()
    requires t == Term(exe, Idx(exe, leaders[at[k]]), NextLeader(exe, leaders, at[k]))
    requires Inside(exe, blocks[k], m) && MachineStep(exe, m, m') && exe.Decoded(m'.pc)
    requires Idx(exe, m.pc) == t && !exe.Transfer(t)
    ensures m.pc == blocks[k].end && m'.pc in blocks[k].succs && m'.npc == At(m'.pc + 4)
  {
    var s, t', next := BlockShape(exe, leaders, blocks, at, k);
    assert m.pc == exe.Addr(t) && m'.pc == exe.Addr(t + 1);
    EdgesOf(exe, leaders, blocks, at, k, s, t, next, m'.pc);
  }

  /** Leaving a delay slot. */
  lemma StepSlot(exe: Exe, leaders: seq<int>, blocks: seq<Block>, at: seq<nat>, k: nat, m: Machine, m': Machine, t: nat)
    requires Analyzed(exe, leaders, blocks, at) && k < |blocks|
    requires at[k] < |leaders| && exe.Decoded(leaders[at[k]]) && Idx(exe, leaders[at[k]]) < exe.N()
    requires t == Term(exe, Idx(exe, leaders[at[k]]), NextLeader(exe, leaders, at[k]))
    requires Inside(exe, blocks[k], m) && MachineStep(exe, m, m') && exe.Decoded(m'.pc)
    requires Idx(exe, m.pc) > t && !Undefined(exe, blocks[k], m)
    ensures m.pc == blocks[k].end && m'.pc in blocks[k].succs && m'.npc == At(m'.pc + 4)
  {
    var s, t', next := BlockShape(exe, leaders, blocks, at, k);
    assert exe.Transfer(t) && t + 1 < exe.N() && m.pc == blocks[k].delay == exe.Addr(t + 1);
    assert !exe.Transfer(t + 1) && exe.kinds[t + 1].Plain? && Idx(exe, m.pc) == t + 1;
    assert exe.InImage(m'.pc);
  }

  /** An edge to a decoded address enters the block that starts there. */
  lemma EdgeEnters(exe: Exe, leaders: seq<int>, blocks: seq<Block>, at: seq<nat>, k: nat, a: int) returns (k': nat)
    requires Analyzed(exe, leaders, blocks, at) && Uncut(exe) && k < |blocks| && a in blocks[k].succs && exe.Decoded(a)
    ensures k' < |blocks| && blocks[k'].start == a && Inside(exe, blocks[k'], Machine(a, At(a + 4)))
  {
    EdgeLeads(exe, leaders, blocks, at, k, a);
    k' := LeaderStartsBlock(exe, leaders, blocks, at, a);
    EntersInside(exe, leaders, blocks, at, k');
  }

  /** One step stays inside the block, follows one of its edges, or leaves the image. */
  lemma StepInGraph(exe: Exe, leaders: seq<int>, blocks: seq<Block>, at: seq<nat>, k: nat, m: Machine, m': Machine)
    returns (k': nat)
    requires Analyzed(exe, leaders, blocks, at) && Uncut(exe) && k < |blocks|
    requires Inside(exe, blocks[k], m) && !Undefined(exe, blocks[k], m) && MachineStep(exe, m, m') && exe.Decoded(m'.pc)
    ensures Follows(exe, blocks, k, k', m, m')
  {
    var s, t, next := BlockShape(exe, leaders, blocks, at, k);
    if Idx(exe, m.pc) < t || (Idx(exe, m.pc) == t && exe.Transfer(t)) {
      StepInBlock(exe, leaders, blocks, at, k, m, m', t);
      k' := k;
    } else {
      if Idx(exe, m.pc) == t { StepFall(exe, leaders, blocks, at, k, m, m', t); }
      else { StepSlot(exe, leaders, blocks, at, k, m, m', t); }
      k' := EdgeEnters(exe, leaders, blocks, at, k, m'.pc);
    }
  }

  /** Every successor of a block, unless its transfer is cut off by the image end, is where an
      execution from the block's start goes next at the block's end. */
  lemma EdgeIsTaken(exe: Exe, leaders: seq<int>, blocks: seq<Block>, at: seq<nat>, k: nat, a: int)
    returns (run: seq<Machine>)
    requires Analyzed(exe, leaders, blocks, at) && k < |blocks| && a in blocks[k].succs
    requires blocks[k].hasDelay ==> blocks[k].delay != 0
    ensures Execution(exe, run) && run[0] == Machine(blocks[k].start, At(blocks[k].start + 4))
    ensures run[|run| - 1] == Machine(blocks[k].end, At(a))
    ensures forall i :: 0 <= i < |run| ==> run[i].pc == blocks[k].start + 4 * i
  {
    var s, t := EdgeBody(exe, leaders, blocks, at, k, a);
    run := BodyRun(exe, s, t, a);
  }

  lemma EdgeBody(exe: Exe, leaders: seq<int>, blocks: seq<Block>, at: seq<nat>, k: nat, a: int)
    returns (s: nat, t: nat)
    requires Analyzed(exe, leaders, blocks, at) && k < |blocks| && a in blocks[k].succs
    requires blocks[k].hasDelay ==> blocks[k].delay != 0
    ensures s <= t < exe.N() && Leads(exe, s, t, a) && forall u :: s <= u < t ==> !exe.Transfer(u)
    ensures blocks[k].start == exe.Addr(s) && (exe.Transfer(t) ==> t + 1 < exe.N())
    ensures blocks[k].end == exe.Addr(if exe.Transfer(t) then t + 1 else t)
  {
    var next;
    s, t, next := BlockShape(exe, leaders, blocks, at, k);
    assert Leads(exe, s, t, a) by { EdgesOf(exe, leaders, blocks, at, k, s, t, next, a); }
  }

  /** Execution through the body `s..t` of a block, and its delay slot if it has one. */
  lemma BodyRun(exe: Exe, s: nat, t: nat, a: int) returns (run: seq<Machine>)
    requires exe.Valid() && s <= t < exe.N() && (forall u :: s <= u < t ==> !exe.Transfer(u)) && Leads(exe, s, t, a)
    requires exe.Transfer(t) ==> t + 1 < exe.N()
    ensures Execution(exe, run) && run[0] == Machine(exe.Addr(s), At(exe.Addr(s) + 4))
    ensures run[|run| - 1] == Machine(exe.Addr(if exe.Transfer(t) then t + 1 else t), At(a))
    ensures forall i :: 0 <= i < |run| ==> run[i].pc == exe.Addr(s) + 4 * i
  {
    run := Straight(exe, s, t);
    if exe.Transfer(t) {
      LastStep(exe, s, t, a);
      run := Longer(exe, run, Machine(exe.Addr(t + 1), At(a)));
    }
  }

  /** From a transfer into its delay slot, about to follow the edge. */
  lemma LastStep(exe: Exe, s: nat, t: nat, a: int)
    requires exe.Valid() && s <= t && t + 1 < exe.N() && exe.Transfer(t) && Leads(exe, s, t, a)
    ensures MachineStep(exe, Machine(exe.Addr(t), At(exe.Addr(t) + 4)), Machine(exe.Addr(t + 1), At(a)))
  {
    WordDecoded(exe, t);
  }

  lemma Longer(exe: Exe, run: seq<Machine>, m: Machine) returns (longer: seq<Machine>)
    requires Execution(exe, run) && MachineStep(exe, run[|run| - 1], m)
    ensures longer == run + [m] && Execution(exe, longer)
  {
    longer := run + [m];
  }

  /** Straight-line execution from word `s` up to word `t`. */
  lemma Straight(exe: Exe, s: nat, t: nat) returns (run: seq<Machine>)
    requires exe.Valid() && s <= t < exe.N() && forall u :: s <= u < t ==> !exe.Transfer(u)
    ensures Execution(exe, run) && |run| == t - s + 1
    ensures forall i :: 0 <= i < |run| ==> run[i] == Machine(exe.Addr(s + i), At(exe.Addr(s + i) + 4))
  {
    run := seq(t - s + 1, i => Machine(exe.Addr(s + i), At(exe.Addr(s + i) + 4)));
    forall i, j | 0 <= i && j == i + 1 < |run| ensures MachineStep(exe, run[i], run[j]) {
      StraightStep(exe, s + i);
    }
  }

  lemma StraightStep(exe: Exe, u: nat)
    requires exe.Valid() && u < exe.N() && !exe.Transfer(u)
    ensures MachineStep(exe, Machine(exe.Addr(u), At(exe.Addr(u) + 4)),
                        Machine(exe.Addr(u + 1), At(exe.Addr(u + 1) + 4)))
  {
    WordDecoded(exe, u);
  }

  /** The machine moves to the next instruction of block `k`, or from its end to the
      start of `k'` along an edge. */
  ghost predicate Follows(exe: Exe, blocks: seq<Block>, k: nat, k': nat, m: Machine, m': Machine) {
    && k < |blocks| && k' < |blocks| && Inside(exe, blocks[k'], m')
    && (if m.pc != blocks[k].end then k' == k && m'.pc == m.pc + 4
        else blocks[k'].start == m'.pc && m'.pc in blocks[k].succs)
  }

  ghost predicate Simulates(exe: Exe, blocks: seq<Block>) {
    forall k: nat, m, m' ::
      k < |blocks| && Inside(exe, blocks[k], m) && !Undefined(exe, blocks[k], m)
      && MachineStep(exe, m, m') && exe.Decoded(m'.pc)
      ==> exists k' :: Follows(exe, blocks, k, k', m, m')
  }

  /** The graph simulates the machine if and only if the image has no cut. */
  lemma GraphSimulatesIff(exe: Exe, leaders: seq<int>, blocks: seq<Block>, at: seq<nat>)
    requires Analyzed(exe, leaders, blocks, at)
    ensures Simulates(exe, blocks) <==> Uncut(exe)
  {
    if Uncut(exe) {
      forall k: nat, m, m' |
        k < |blocks| && Inside(exe, blocks[k], m) && !Undefined(exe, blocks[k], m)
        && MachineStep(exe, m, m') && exe.Decoded(m'.pc)
        ensures exists k' :: Follows(exe, blocks, k, k', m, m')
      {
        var k' := StepInGraph(exe, leaders, blocks, at, k, m, m');
      }
    } else {
      var i :| Cut(exe, i);
      var k, t := CutOpens(exe, leaders, blocks, at, i);
      FallsOut(exe, leaders, blocks, at, k, t);
    }
  }

  /** Falling through a cut leaves the graph. */
  lemma FallsOut(exe: Exe, leaders: seq<int>, blocks: seq<Block>, at: seq<nat>, k: nat, t: nat)
    requires Analyzed(exe, leaders, blocks, at) && k < |blocks| && t + 1 < exe.N() && !exe.Transfer(t)
    requires blocks[k].start <= blocks[k].end == exe.Addr(t) && !blocks[k].hasDelay && !IsLeader(exe, exe.Addr(t + 1))
    ensures !Simulates(exe, blocks)
  {
    WordDecoded(exe, t);
    WordDecoded(exe, t + 1);
    var m, m' := Machine(exe.Addr(t), At(exe.Addr(t + 1))), Machine(exe.Addr(t + 1), At(exe.Addr(t + 2)));
    assert Inside(exe, blocks[k], m) && !Undefined(exe, blocks[k], m) && MachineStep(exe, m, m');
    forall k' ensures !Follows(exe, blocks, k, k', m, m') {
      if Follows(exe, blocks, k, k', m, m') { StartIsLeader(exe, leaders, blocks, at, m'.pc); }
    }
  }

  /** `ks[i]` is the block that the machine is in at `run[i]`. */
  ghost predicate Traces(exe: Exe, blocks: seq<Block>, run: seq<Machine>, ks: seq<nat>) {
    && |ks| == |run| && (forall i :: 0 <= i < |run| ==> ks[i] < |blocks| && Inside(exe, blocks[ks[i]], run[i]))
    && forall i, j :: 0 <= i && j == i + 1 < |run| ==> Follows(exe, blocks, ks[i], ks[j], run[i], run[j])
  }

  /** The run stays in the image, and never executes a transfer right after another: the
      second would sit in the delay slot of the first. */
  ghost predicate CleanRun(exe: Exe, run: seq<Machine>) {
    && (forall i :: 0 <= i < |run| ==> exe.Decoded(run[i].pc))
    && forall i, j :: 0 <= i && j == i + 1 < |run| ==>
         !(exe.Transfer(Idx(exe, run[i].pc)) && exe.Transfer(Idx(exe, run[j].pc)))
  }

  /** Every clean run from inside a block stays in it up to its last instruction and then
      follows one of its successor edges, from block to block. */
  lemma RunsFollowEdges(exe: Exe, leaders: seq<int>, blocks: seq<Block>, at: seq<nat>, k: nat, run: seq<Machine>)
    returns (ks: seq<nat>)
    requires Analyzed(exe, leaders, blocks, at) && Uncut(exe) && k < |blocks|
    requires Execution(exe, run) && CleanRun(exe, run) && Inside(exe, blocks[k], run[0])
    requires !Undefined(exe, blocks[k], run[0])
    ensures Traces(exe, blocks, run, ks) && ks[0] == k
  {
    GraphSimulatesIff(exe, leaders, blocks, at);
    forall j | 0 <= j < |blocks| ensures OwnsSlot(exe, blocks[j]) { BlockOwnsSlot(exe, leaders, blocks, at, j); }
    ks := TraceRun(exe, blocks, k, run);
  }

  /** The delay slot of a block follows a transfer of the same block. */
  predicate OwnsSlot(exe: Exe, b: Block) {
    b.hasDelay && exe.Decoded(b.delay) ==>
      b.start < b.delay && exe.Decoded(b.delay - 4) && exe.Transfer(Idx(exe, b.delay - 4))
  }

  lemma BlockOwnsSlot(exe: Exe, leaders: seq<int>, blocks: seq<Block>, at: seq<nat>, k: nat)
    requires Analyzed(exe, leaders, blocks, at) && k < |blocks|
    ensures OwnsSlot(exe, blocks[k])
  {
    var s, t, next := BlockShape(exe, leaders, blocks, at, k);
    if blocks[k].hasDelay && exe.Decoded(blocks[k].delay) {
      assert blocks[k].delay - 4 == exe.Addr(t);
      assert exe.Decoded(exe.Addr(t)) && Idx(exe, exe.Addr(t)) == t;
    }
  }

  lemma {:induction false} TraceRun(exe: Exe, blocks: seq<Block>, k: nat, run: seq<Machine>) returns (ks: seq<nat>)
    requires Simulates(exe, blocks) && (forall j :: 0 <= j < |blocks| ==> OwnsSlot(exe, blocks[j])) && k < |blocks|
    requires Execution(exe, run) && CleanRun(exe, run) && Inside(exe, blocks[k], run[0])
    requires !Undefined(exe, blocks[k], run[0])
    ensures Traces(exe, blocks, run, ks) && ks[0] == k && !Undefined(exe, blocks[ks[|run| - 1]], run[|run| - 1])
    decreases |run|
  {
    if |run| == 1 {
      ks := [k];
    } else {
      var n := |run| - 1;
      CleanPrefix(exe, run);
      var q := TraceRun(exe, blocks, k, run[..n]);
      var j, m, m' := q[n - 1], run[n - 1], run[n];
      assert run[..n][n - 1] == m && MachineStep(exe, m, m') && Inside(exe, blocks[j], m);
      var k' :| Follows(exe, blocks, j, k', m, m');
      StillDefined(exe, blocks, j, k', m, m');
      ks := q + [k'];
      TraceSnoc(exe, blocks, run, q, k');
    }
  }

  lemma CleanPrefix(exe: Exe, run: seq<Machine>)
    requires |run| > 1 && Execution(exe, run) && CleanRun(exe, run)
    ensures Execution(exe, run[..|run| - 1]) && CleanRun(exe, run[..|run| - 1])
  {}

  /** After a step that does not put a transfer behind a transfer, the machine is not about
      to execute a transfer in its block's delay slot. */
  lemma StillDefined(exe: Exe, blocks: seq<Block>, k: nat, k': nat, m: Machine, m': Machine)
    requires Follows(exe, blocks, k, k', m, m') && OwnsSlot(exe, blocks[k'])
    requires exe.Decoded(m.pc) && exe.Decoded(m'.pc) && !(exe.Transfer(Idx(exe, m.pc)) && exe.Transfer(Idx(exe, m'.pc)))
    ensures !Undefined(exe, blocks[k'], m')
  {}

  lemma TraceSnoc(exe: Exe, blocks: seq<Block>, run: seq<Machine>, q: seq<nat>, k': nat)
    requires |run| > 1 && Traces(exe, blocks, run[..|run| - 1], q)
    requires Follows(exe, blocks, q[|run| - 2], k', run[|run| - 2], run[|run| - 1])
    ensures Traces(exe, blocks, run, q + [k'])
  {
    var ks, n := q + [k'], |run| - 1;
    forall i | 0 <= i < |run| ensures ks[i] < |blocks| && Inside(exe, blocks[ks[i]], run[i]) {
      if i < n { assert run[..n][i] == run[i] && ks[i] == q[i]; }
    }
    forall i, j | 0 <= i && j == i + 1 < |run| ensures Follows(exe, blocks, ks[i], ks[j], run[i], run[j]) {
      if j < n { assert run[..n][i] == run[i] && run[..n][j] == run[j] && ks[i] == q[i] && ks[j] == q[j]; }
    }
  }

  /** Execution that enters a block at its start is inside it. */
  lemma EntersInside(exe: Exe, leaders: seq<int>, blocks: seq<Block>, at: seq<nat>, k: nat)
    requires Analyzed(exe, leaders, blocks, at) && k < |blocks|
    ensures Inside(exe, blocks[k], Machine(blocks[k].start, At(blocks[k].start + 4)))
  {
    var s, t, next := BlockShape(exe, leaders, blocks, at, k);
  }
}
