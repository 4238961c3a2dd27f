/** Address normalisation in the audit configuration: a segment mask, then remaps. */
module Normalise {
  import opened Mips

  datatype Remap = Remap(lo: nat, hi: nat, dest: nat) {
    predicate Has(a: int) { lo <= a < hi }

    function Move(a: int): int { if Has(a) then a - lo + dest else a }
  }

  /** Bitwise conjunction. */
  function And(a: nat, m: nat): (r: nat)
    ensures r <= m
  {
    if m == 0 then 0 else 2 * And(a / 2, m / 2) + (if a % 2 == 1 && m % 2 == 1 then 1 else 0)
  }

  lemma {:induction false} AndIdempotent(a: nat, m: nat)
    ensures And(And(a, m), m) == And(a, m)
    decreases m
  {
    if m != 0 {
      var r := And(a, m);
      assert r / 2 == And(a / 2, m / 2) && (r % 2 == 1 <==> a % 2 == 1 && m % 2 == 1);
      AndIdempotent(a / 2, m / 2);
    }
  }

  /** A mask below 2^n does not see the segment bits above it. */
  lemma {:induction false} AndIgnoresSegment(a: nat, segment: nat, n: nat, m: nat)
    requires m < Pow2(n)
    ensures And(a + segment * Pow2(n), m) == And(a, m)
    decreases n
  {
    if m != 0 {
      var half := Pow2(n - 1);
      var s := segment * half;
      assert segment * Pow2(n) == 2 * s by { Doubled(segment, half); }
      assert (a + 2 * s) / 2 == a / 2 + s && (a + 2 * s) % 2 == a % 2;
      AndIgnoresSegment(a / 2, segment, n - 1, m / 2);
    }
  }

  lemma {:induction false} AndOnes(a: nat, n: nat)
    requires a < Pow2(n)
    ensures And(a, Pow2(n) - 1) == a
  {
    if n > 0 {
      var p := Pow2(n - 1);
      AndOnes(a / 2, n - 1);
      assert (2 * p - 1) / 2 == p - 1 && (2 * p - 1) % 2 == 1;
    }
  }

  /** A mask of `n` ones keeps exactly the lower `n` bits. */
  lemma MaskKeepsLow(low: nat, segment: nat, n: nat)
    requires low < Pow2(n)
    ensures And(low + segment * Pow2(n), Pow2(n) - 1) == low
  {
    AndIgnoresSegment(low, segment, n, Pow2(n) - 1);
    AndOnes(low, n);
  }

  lemma Doubled(x: nat, y: nat)
    ensures x * (2 * y) == 2 * (x * y)
  {}

  /** The remaps applied in order, each to the result of the ones before it. */
  function Remapped(a: nat, remaps: seq<Remap>): nat {
    if remaps == [] then a else remaps[|remaps| - 1].Move(Remapped(a, remaps[..|remaps| - 1]))
  }

  method NormaliseAddr(addr: nat, mask: nat, remaps: seq<Remap>) returns (phys: nat)
    ensures phys == Normal(addr, mask, remaps)
  {
    phys := And(addr, mask);
    for i := 0 to |remaps|
      invariant phys == Remapped(And(addr, mask), remaps[..i])
    {
      var rm := remaps[i];
      if rm.lo <= phys < rm.hi { phys := phys - rm.lo + rm.dest; }
      assert remaps[..i + 1][..i] == remaps[..i];
    }
    assert remaps[..|remaps|] == remaps;
  }

  function Normal(a: nat, mask: nat, remaps: seq<Remap>): nat { Remapped(And(a, mask), remaps) }

  predicate Untouched(a: int, remaps: seq<Remap>) { forall rm <- remaps :: !rm.Has(a) }

  /** Every remap image is stable under the mask and outside every source range. */
  ghost predicate WellFormed(mask: nat, remaps: seq<Remap>) {
    forall i, a: nat :: 0 <= i < |remaps| && remaps[i].Has(a) ==>
      And(remaps[i].Move(a), mask) == remaps[i].Move(a) && Untouched(remaps[i].Move(a), remaps)
  }

  lemma {:induction false} UntouchedStays(a: nat, remaps: seq<Remap>, n: nat)
    requires n <= |remaps| && Untouched(a, remaps)
    ensures Remapped(a, remaps[..n]) == a
    decreases n
  {
    if n > 0 {
      UntouchedStays(a, remaps, n - 1);
      assert remaps[..n][..n - 1] == remaps[..n - 1] && remaps[n - 1] in remaps;
    }
  }

  /** After some remaps of a well-formed chain, either nothing moved and none of them
      applied, or the address is final. */
  lemma {:induction false} Progress(a: nat, mask: nat, remaps: seq<Remap>, n: nat)
    requires n <= |remaps| && WellFormed(mask, remaps) && And(a, mask) == a
    ensures var r := Remapped(a, remaps[..n]);
      And(r, mask) == r && (Untouched(r, remaps) || (r == a && Untouched(a, remaps[..n])))
    decreases n
  {
    if n > 0 {
      Progress(a, mask, remaps, n - 1);
      var r := Remapped(a, remaps[..n - 1]);
      assert remaps[..n][..n - 1] == remaps[..n - 1] && remaps[n - 1] in remaps;
      if remaps[n - 1].Has(r) {
        assert Remapped(a, remaps[..n]) == remaps[n - 1].Move(r);
      } else {
        assert remaps[..n] == remaps[..n - 1] + [remaps[n - 1]];
      }
    }
  }

  /** For a well-formed configuration normalisation is idempotent, its results are fixed
      points of the whole chain, and the aliases of an address in segments above the
      mask all get one result. */
  lemma NormalIsIdempotent(a: nat, mask: nat, remaps: seq<Remap>)
    requires WellFormed(mask, remaps)
    ensures Normal(Normal(a, mask, remaps), mask, remaps) == Normal(a, mask, remaps)
    ensures Untouched(Normal(a, mask, remaps), remaps)
  {
    var m := And(a, mask);
    AndIdempotent(a, mask);
    Progress(m, mask, remaps, |remaps|);
    assert remaps[..|remaps|] == remaps;
    UntouchedStays(Normal(a, mask, remaps), remaps, |remaps|);
  }

  lemma AliasesAgree(a: nat, segment: nat, n: nat, mask: nat, remaps: seq<Remap>)
    requires mask < Pow2(n)
    ensures Normal(a + segment * Pow2(n), mask, remaps) == Normal(a, mask, remaps)
  {
    AndIgnoresSegment(a, segment, n, mask);
  }

  /** A remap into an earlier source range breaks idempotence. */
  lemma BackwardRemapMovesTwice()
    ensures exists remaps :: Normal(Normal(12, 15, remaps), 15, remaps) != Normal(12, 15, remaps)
  {
    var first, second := Remap(4, 8, 0), Remap(12, 16, 4);
    var rs := [first] + [second];
    TwoRemaps(first, second, 12);
    TwoRemaps(first, second, 4);
    assert And(12, 15) == 12 && And(4, 15) == 4;
    assert Normal(12, 15, rs) != Normal(4, 15, rs);
  }

  lemma TwoRemaps(first: Remap, second: Remap, a: nat)
    ensures Remapped(a, [first] + [second]) == second.Move(first.Move(a))
  {
    var rs := [first] + [second];
    assert rs[..|rs| - 1] == [first];
    assert [first][..0] == [];
    assert Remapped(a, [first]) == first.Move(Remapped(a, []));
  }
}
