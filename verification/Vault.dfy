/** The additive coverage vault: merging captures never drops coverage. */
module Vault {
  import opened Collections

  /** One captured variant: its key (load address and hash of the bytes) and its PC lists. */
  datatype Variant = Variant(key: string, executed: seq<int>, dispatch: seq<int>)

  ghost predicate Distinct(vs: seq<Variant>) { forall i, j :: 0 <= i < j < |vs| ==> vs[i].key != vs[j].key }

  ghost predicate HasKey(vs: seq<Variant>, k: string) { exists i :: 0 <= i < |vs| && vs[i].key == k }

  /** `pc` is recorded as executed for variant `k`. */
  ghost predicate Executed(vs: seq<Variant>, k: string, pc: int) {
    exists i :: 0 <= i < |vs| && vs[i].key == k && pc in vs[i].executed
  }

  ghost predicate Dispatched(vs: seq<Variant>, k: string, pc: int) {
    exists i :: 0 <= i < |vs| && vs[i].key == k && pc in vs[i].dispatch
  }

  /** `out` is the pointwise union of `a` and `b`. */
  ghost predicate IsUnion(a: seq<Variant>, b: seq<Variant>, out: seq<Variant>) {
    && Distinct(out)
    && (forall k :: HasKey(out, k) <==> HasKey(a, k) || HasKey(b, k))
    && (forall k, pc :: Executed(out, k, pc) <==> Executed(a, k, pc) || Executed(b, k, pc))
    && (forall k, pc :: Dispatched(out, k, pc) <==> Dispatched(a, k, pc) || Dispatched(b, k, pc))
  }

  /** Nothing in `b` is new to `a`. */
  ghost predicate Within(b: seq<Variant>, a: seq<Variant>) {
    && (forall k :: HasKey(b, k) ==> HasKey(a, k))
    && (forall k, pc :: Executed(b, k, pc) ==> Executed(a, k, pc))
  }

  /** Every PC recorded as executed, with its variant. */
  function Recorded(vs: seq<Variant>): (r: set<(string, int)>)
    ensures forall k, pc :: (k, pc) in r <==> Executed(vs, k, pc)
  {
    set i, pc | 0 <= i < |vs| && pc in vs[i].executed :: (vs[i].key, pc)
  }

  /** The count is the number of newly recorded PCs; a new variant that lists a PC twice
      counts it twice. */
  ghost predicate Counts(vs: seq<Variant>, src: seq<Variant>, out: seq<Variant>, pcs: int) {
    && pcs >= |Recorded(out)| - |Recorded(vs)|
    && ((forall i :: 0 <= i < |src| ==> NoRepeats(src[i].executed)) ==> pcs == |Recorded(out)| - |Recorded(vs)|)
  }

  method Find(vs: seq<Variant>, k: string) returns (i: nat)
    ensures i <= |vs| && (i < |vs| ==> vs[i].key == k)
    ensures i == |vs| <==> !HasKey(vs, k)
  {
    i := 0;
    while i < |vs| && vs[i].key != k
      invariant 0 <= i <= |vs| && forall j :: 0 <= j < i ==> vs[j].key != k
    {
      i := i + 1;
    }
  }

  /** Merging one capture into the index. */
  method MergeOne(vs: seq<Variant>, r: Variant) returns (out: seq<Variant>, variants: nat, pcs: nat)
    requires Distinct(vs)
    ensures Merged(vs, [r], out, variants, pcs)
    ensures |vs| <= |out| && forall j :: 0 <= j < |vs| ==> out[j].key == vs[j].key
    ensures forall j :: 0 <= j < |vs| && vs[j].key != r.key ==> out[j] == vs[j]
  {
    var i := Find(vs, r.key);
    if i == |vs| {
      out, variants, pcs := vs + [r], 1, |r.executed|;
      Appended(vs, r, out);
      AppendedCount(vs, r, out);
      assert HasKey([r], [r][0].key);
    } else {
      var cur, add := vs[i], set pc | pc in r.executed;
      var unseen := set pc | pc in add && pc !in cur.executed;
      pcs, variants := |unseen|, 0;
      NoneUnseen(r.executed, cur.executed, unseen);
      var executed := SortedSeq((set pc | pc in cur.executed) + add);
      var dispatch := SortedSeq((set pc | pc in cur.dispatch) + (set pc | pc in r.dispatch));
      out := vs[i := Variant(cur.key, executed, dispatch)];
      Replaced(vs, i, r, out);
      NothingNew(vs, i, r);
      ReplacedCount(vs, i, r, out, unseen);
    }
  }

  lemma NoneUnseen<T>(xs: seq<T>, known: seq<T>, unseen: set<T>)
    requires forall x :: x in unseen <==> x in xs && x !in known
    ensures |unseen| == 0 <==> forall x :: x in xs ==> x in known
  {
    if |unseen| == 0 { assert unseen == {}; }
  }

  /** A capture of a known variant is new only through a PC its record lacks. */
  lemma NothingNew(vs: seq<Variant>, i: nat, r: Variant)
    requires Distinct(vs) && i < |vs| && vs[i].key == r.key
    ensures Within([r], vs) <==> forall pc :: pc in r.executed ==> pc in vs[i].executed
  {
    var one := [r];
    assert one[0] == r;
    forall pc | pc in r.executed ensures Executed(one, r.key, pc) {}
    forall pc | Executed(vs, r.key, pc) ensures pc in vs[i].executed {}
  }

  lemma AppendedCount(vs: seq<Variant>, r: Variant, out: seq<Variant>)
    requires !HasKey(vs, r.key) && IsUnion(vs, [r], out)
    ensures Counts(vs, [r], out, |r.executed|)
  {
    var one, added := [r], set pc | pc in r.executed;
    assert one[0] == r;
    ElementCount(r.executed, added);
    forall k, pc ensures (k, pc) in Recorded(out) <==> (k, pc) in Recorded(vs) || (k == r.key && pc in added) {
      assert (k, pc) in Recorded(out) <==> Executed(out, k, pc);
      assert (k, pc) in Recorded(vs) <==> Executed(vs, k, pc);
      assert Executed(one, k, pc) <==> k == r.key && pc in r.executed;
    }
    AddedPairs(Recorded(vs), Recorded(out), r.key, added);
  }

  lemma ReplacedCount(vs: seq<Variant>, i: nat, r: Variant, out: seq<Variant>, unseen: set<int>)
    requires Distinct(vs) && i < |vs| && vs[i].key == r.key && IsUnion(vs, [r], out)
    requires forall pc :: pc in unseen <==> pc in r.executed && pc !in vs[i].executed
    ensures |Recorded(out)| == |Recorded(vs)| + |unseen|
  {
    var one := [r];
    assert one[0] == r;
    forall pc ensures Executed(vs, r.key, pc) <==> pc in vs[i].executed {}
    forall k, pc ensures (k, pc) in Recorded(out) <==> (k, pc) in Recorded(vs) || (k == r.key && pc in unseen) {
      assert (k, pc) in Recorded(out) <==> Executed(out, k, pc);
      assert (k, pc) in Recorded(vs) <==> Executed(vs, k, pc);
      assert Executed(one, k, pc) <==> k == r.key && pc in r.executed;
    }
    AddedPairs(Recorded(vs), Recorded(out), r.key, unseen);
  }

  lemma Appended(vs: seq<Variant>, r: Variant, out: seq<Variant>)
    requires Distinct(vs) && !HasKey(vs, r.key) && out == vs + [r]
    ensures IsUnion(vs, [r], out)
  {
    assert [r][0] == r && out[|vs|] == r;
    assert forall i :: 0 <= i < |vs| ==> out[i] == vs[i];
  }

  lemma Replaced(vs: seq<Variant>, i: nat, r: Variant, out: seq<Variant>)
    requires Distinct(vs) && i < |vs| && vs[i].key == r.key
    requires |out| == |vs| && out[i].key == r.key && forall j :: 0 <= j < |vs| && j != i ==> out[j] == vs[j]
    requires forall pc :: pc in out[i].executed <==> pc in vs[i].executed || pc in r.executed
    requires forall pc :: pc in out[i].dispatch <==> pc in vs[i].dispatch || pc in r.dispatch
    ensures IsUnion(vs, [r], out)
  {
    assert [r][0] == r;
  }

  /** `out` is `vs` indexed by key: each key once, with its last record. */
  ghost predicate IsIndex(vs: seq<Variant>, out: seq<Variant>) {
    && Distinct(out)
    && (forall k :: HasKey(out, k) <==> HasKey(vs, k))
    && (forall n :: 0 <= n < |out| ==> Final(vs, out[n]))
  }

  ghost predicate Final(vs: seq<Variant>, r: Variant) { exists i :: LastOf(vs, r, i) }

  ghost predicate LastOf(vs: seq<Variant>, r: Variant, i: int) {
    0 <= i < |vs| && vs[i] == r && forall j :: i < j < |vs| ==> vs[j].key != r.key
  }

  method Index(vs: seq<Variant>) returns (out: seq<Variant>)
    ensures IsIndex(vs, out)
  {
    out := [];
    for n := 0 to |vs|
      invariant IsIndex(vs[..n], out)
    {
      var i := Find(out, vs[n].key);
      ghost var before := out;
      out := if i == |out| then out + [vs[n]] else out[i := vs[n]];
      Indexed(vs, n, before, i, out);
    }
    assert vs[..|vs|] == vs;
  }

  lemma Indexed(vs: seq<Variant>, n: nat, before: seq<Variant>, i: nat, out: seq<Variant>)
    requires n < |vs| && IsIndex(vs[..n], before) && i <= |before|
    requires i == |before| <==> !HasKey(before, vs[n].key)
    requires i < |before| ==> before[i].key == vs[n].key
    requires out == if i == |before| then before + [vs[n]] else before[i := vs[n]]
    ensures IsIndex(vs[..n + 1], out)
  {
    assert Distinct(out);
    IndexedKeys(vs, n, before, i, out);
    var s, t := vs[..n], vs[..n + 1];
    forall m | 0 <= m < |out| ensures Final(t, out[m]) {
      if m == i {
        assert LastOf(t, out[m], n);
      } else {
        assert out[m] == before[m] && Final(s, before[m]);
        var j :| LastOf(s, before[m], j);
        StillLast(vs, n, out[m], j);
      }
    }
    assert forall k :: HasKey(out, k) <==> HasKey(t, k);
  }

  lemma StillLast(vs: seq<Variant>, n: nat, r: Variant, j: nat)
    requires n < |vs| && LastOf(vs[..n], r, j) && r.key != vs[n].key
    ensures LastOf(vs[..n + 1], r, j)
  {}

  lemma IndexedKeys(vs: seq<Variant>, n: nat, before: seq<Variant>, i: nat, out: seq<Variant>)
    requires n < |vs| && i <= |before| && forall k :: HasKey(before, k) <==> HasKey(vs[..n], k)
    requires i < |before| ==> before[i].key == vs[n].key
    requires out == if i == |before| then before + [vs[n]] else before[i := vs[n]]
    ensures forall k :: HasKey(out, k) <==> HasKey(vs[..n + 1], k)
  {
    Split(vs, n);
    var one := [vs[n]];
    assert out[i] == one[0];
    forall k ensures HasKey(out, k) <==> HasKey(before, k) || HasKey(one, k) {
      if HasKey(before, k) {
        var m :| 0 <= m < |before| && before[m].key == k;
        assert out[m].key == k;
      }
    }
  }

  /** Indexing keeps all coverage exactly when every record stays within the last record
      of its variant; in particular a vault without duplicates loses nothing. */
  lemma IndexKeepsIff(vs: seq<Variant>, out: seq<Variant>)
    requires IsIndex(vs, out)
    ensures Same(vs, out) <==> Nested(vs)
    ensures Distinct(vs) ==> Same(vs, out)
  {
    forall i, j | 0 <= i < |vs| && 0 <= j < |vs| && LastOf(vs, vs[j], j) && vs[i].key == vs[j].key && Same(vs, out)
      ensures Covered(vs[i], vs[j]) {
      LastIsIndexed(vs, out, j);
      assert forall pc :: pc in vs[i].executed ==> Executed(vs, vs[i].key, pc);
      assert forall pc :: pc in vs[i].dispatch ==> Dispatched(vs, vs[i].key, pc);
    }
    if Nested(vs) {
      IndexedKeeps(vs, out);
    }
  }

  /** Every record is within the last record of its variant. */
  ghost predicate Nested(vs: seq<Variant>) {
    forall i, j :: 0 <= i < |vs| && 0 <= j < |vs| && LastOf(vs, vs[j], j) && vs[i].key == vs[j].key ==>
      Covered(vs[i], vs[j])
  }

  predicate Covered(r: Variant, last: Variant) {
    && (forall pc <- r.executed :: pc in last.executed)
    && (forall pc <- r.dispatch :: pc in last.dispatch)
  }

  lemma LastIsIndexed(vs: seq<Variant>, out: seq<Variant>, j: int)
    requires IsIndex(vs, out) && 0 <= j < |vs| && LastOf(vs, vs[j], j)
    ensures exists n :: 0 <= n < |out| && out[n] == vs[j]
  {
    var k := vs[j].key;
    assert HasKey(out, k);
    var n :| 0 <= n < |out| && out[n].key == k;
    var i :| LastOf(vs, out[n], i);
  }

  lemma IndexedKeeps(vs: seq<Variant>, out: seq<Variant>)
    requires IsIndex(vs, out)
    requires Nested(vs)
    ensures Same(vs, out)
  {
    forall k, pc | Executed(vs, k, pc) || Dispatched(vs, k, pc)
      ensures (Executed(vs, k, pc) ==> Executed(out, k, pc)) && (Dispatched(vs, k, pc) ==> Dispatched(out, k, pc))
    {
      assert HasKey(out, k);
      var n :| 0 <= n < |out| && out[n].key == k;
      var j :| LastOf(vs, out[n], j);
    }
    IndexedWithin(vs, out);
  }

  lemma IndexedWithin(vs: seq<Variant>, out: seq<Variant>)
    requires IsIndex(vs, out)
    ensures forall k, pc :: Executed(out, k, pc) ==> Executed(vs, k, pc)
    ensures forall k, pc :: Dispatched(out, k, pc) ==> Dispatched(vs, k, pc)
  {
    forall n | 0 <= n < |out| ensures exists j :: 0 <= j < |vs| && out[n] == vs[j] {
      var j :| LastOf(vs, out[n], j);
    }
  }

  /** `merge_captures`: the pointwise union of the indexed vault and the captures, with
      counts of what was new. An empty source leaves the vault as it is. */
  method Merge(vault: seq<Variant>, src: seq<Variant>) returns (out: seq<Variant>, variants: nat, pcs: nat)
    ensures src == [] ==> out == vault && variants == pcs == 0
    ensures src != [] ==> exists ix :: IsIndex(vault, ix) && Merged(ix, src, out, variants, pcs)
    ensures Distinct(vault) ==> Merged(vault, src, out, variants, pcs)
  {
    if src == [] { return vault, 0, 0; }
    variants, pcs := 0, 0;
    out := Index(vault);
    ghost var ix := out;
    for i := 0 to |src|
      invariant Merged(ix, src[..i], out, variants, pcs)
    {
      ghost var before := out;
      var v, p;
      out, v, p := MergeOne(out, src[i]);
      MergedSnoc(ix, src, i, before, out, variants, pcs, v, p);
      variants, pcs := variants + v, pcs + p;
    }
    assert src[..|src|] == src;
    if Distinct(vault) { MergedSame(vault, ix, src, out, variants, pcs); }
  }

  /** The result of a merge into `ix`, and when it reports nothing new. */
  ghost predicate Merged(ix: seq<Variant>, src: seq<Variant>, out: seq<Variant>, variants: int, pcs: int) {
    && IsUnion(ix, src, out) && variants == |out| - |ix| && Counts(ix, src, out, pcs)
    && ((variants == 0 && pcs == 0) <==> Within(src, ix))
  }

  lemma MergedSnoc(ix: seq<Variant>, src: seq<Variant>, i: nat, before: seq<Variant>, out: seq<Variant>,
                   variants: nat, pcs: nat, v: nat, p: nat)
    requires i < |src| && Merged(ix, src[..i], before, variants, pcs) && Merged(before, [src[i]], out, v, p)
    ensures Merged(ix, src[..i + 1], out, variants + v, pcs + p)
  {
    UnionSnoc(ix, src, i, before, out);
    WithinSnoc(ix, src, i, before);
    CountsSnoc(ix, src, i, before, out, pcs, p);
  }

  lemma CountsSnoc(ix: seq<Variant>, src: seq<Variant>, i: nat, before: seq<Variant>, out: seq<Variant>, p: int, q: int)
    requires i < |src| && Counts(ix, src[..i], before, p) && Counts(before, [src[i]], out, q)
    ensures Counts(ix, src[..i + 1], out, p + q)
  {
    var s, t, one := src[..i], src[..i + 1], [src[i]];
    if forall j :: 0 <= j < |t| ==> NoRepeats(t[j].executed) {
      assert forall j :: 0 <= j < |s| ==> t[j] == s[j];
      assert t[i] == one[0];
    }
  }

  /** Indexing a duplicate-free vault keeps its records, so the counts are the same too. */
  lemma DistinctIndex(vs: seq<Variant>, ix: seq<Variant>)
    requires Distinct(vs) && IsIndex(vs, ix)
    ensures Same(vs, ix) && |vs| == |ix|
  {
    IndexKeepsIff(vs, ix);
    SameKeysSameLength(vs, ix);
    SameKeysSameLength(ix, vs);
  }

  lemma MergedSame(vs: seq<Variant>, ix: seq<Variant>, src: seq<Variant>, out: seq<Variant>, variants: nat, pcs: nat)
    requires Distinct(vs) && IsIndex(vs, ix) && Merged(ix, src, out, variants, pcs)
    ensures Merged(vs, src, out, variants, pcs)
  {
    DistinctIndex(vs, ix);
    forall k, pc ensures (k, pc) in Recorded(ix) <==> (k, pc) in Recorded(vs) {
      assert (k, pc) in Recorded(ix) <==> Executed(ix, k, pc);
    }
    SamePairs(Recorded(ix), Recorded(vs));
  }

  lemma {:induction false} SameKeysSameLength(a: seq<Variant>, b: seq<Variant>)
    requires Distinct(a) && Distinct(b) && forall k :: HasKey(a, k) ==> HasKey(b, k)
    ensures |a| <= |b|
    decreases |a|
  {
    if a != [] {
      var n := |a| - 1;
      var k := a[n].key;
      assert HasKey(a, k);
      var m :| 0 <= m < |b| && b[m].key == k;
      var a', b' := a[..n], b[..m] + b[m + 1..];
      forall x | HasKey(a', x) ensures HasKey(b', x) {
        var i :| 0 <= i < |a'| && a'[i].key == x;
        assert a[i].key == x && x != k;
        assert HasKey(a, x);
        var j :| 0 <= j < |b| && b[j].key == x;
        assert b'[if j < m then j else j - 1] == b[j];
      }
      forall i, j | 0 <= i < j < |b'| ensures b'[i].key != b'[j].key {
        assert b'[i] == b[if i < m then i else i + 1] && b'[j] == b[if j < m then j else j + 1];
      }
      SameKeysSameLength(a', b');
    }
  }

  lemma WithinSnoc(ix: seq<Variant>, src: seq<Variant>, i: nat, before: seq<Variant>)
    requires i < |src| && IsUnion(ix, src[..i], before)
    ensures Within(src[..i + 1], ix) <==> Within(src[..i], ix) && Within([src[i]], before)
  {
    Split(src, i);
  }

  lemma Split(src: seq<Variant>, i: nat)
    requires i < |src|
    ensures forall k :: HasKey(src[..i + 1], k) <==> HasKey(src[..i], k) || HasKey([src[i]], k)
    ensures forall k, pc :: Executed(src[..i + 1], k, pc) <==> Executed(src[..i], k, pc) || Executed([src[i]], k, pc)
    ensures forall k, pc :: Dispatched(src[..i + 1], k, pc)
              <==> Dispatched(src[..i], k, pc) || Dispatched([src[i]], k, pc)
  {
    var s, t, one := src[..i], src[..i + 1], [src[i]];
    assert forall j :: 0 <= j < |s| ==> t[j] == s[j];
    assert t[i] == one[0];
  }

  lemma UnionSnoc(a: seq<Variant>, src: seq<Variant>, i: nat, before: seq<Variant>, out: seq<Variant>)
    requires i < |src| && IsUnion(a, src[..i], before) && IsUnion(before, [src[i]], out)
    ensures IsUnion(a, src[..i + 1], out)
  {
    Split(src, i);
  }

  /** Two vaults with the same variants and the same PC sets. */
  ghost predicate Same(a: seq<Variant>, b: seq<Variant>) {
    && (forall k :: HasKey(a, k) <==> HasKey(b, k))
    && (forall k, pc :: Executed(a, k, pc) <==> Executed(b, k, pc))
    && (forall k, pc :: Dispatched(a, k, pc) <==> Dispatched(b, k, pc))
  }

  /** Merging is a join: it is monotone, repeating it changes nothing and reports nothing
      new, and neither the order nor the grouping of merges matters. */
  lemma MergeIsJoin(v: seq<Variant>, a: seq<Variant>, b: seq<Variant>, va: seq<Variant>, vaa: seq<Variant>,
                    vab: seq<Variant>,
                    vb: seq<Variant>, vba: seq<Variant>, ab: seq<Variant>, v_ab: seq<Variant>)
    requires IsUnion(v, a, va) && IsUnion(va, a, vaa) && IsUnion(va, b, vab) && IsUnion(v, b, vb) && IsUnion(vb, a, vba)
    requires IsUnion(a, b, ab) && IsUnion(v, ab, v_ab)
    ensures Within(v, va) && Within(a, va) && Same(va, vaa) && Same(vab, vba) && Same(vab, v_ab)
  {}

  /** Coverage lost by a vault that lists one variant twice. */
  lemma DuplicateLosesCoverage(out: seq<Variant>)
    requires IsIndex([Variant("k", [1], []), Variant("k", [], [])], out)
    ensures !Executed(out, "k", 1)
  {
    var vs := [Variant("k", [1], []), Variant("k", [], [])];
    forall n | 0 <= n < |out| ensures out[n] == vs[1] {
      var i :| LastOf(vs, out[n], i);
      assert vs[1].key == vs[0].key;
    }
  }

  /** Nothing in `b`, dispatch PCs included, is new to `a`. */
  ghost predicate AllWithin(b: seq<Variant>, a: seq<Variant>) {
    Within(b, a) && forall k, pc :: Dispatched(b, k, pc) ==> Dispatched(a, k, pc)
  }

  /** A merge changes nothing if and only if everything was there, dispatch PCs included;
      that it reports nothing new says so only of the executed ones. */
  lemma MergeIdleIff(ix: seq<Variant>, src: seq<Variant>, out: seq<Variant>)
    requires IsUnion(ix, src, out)
    ensures Same(ix, out) <==> AllWithin(src, ix)
  {}

  /** A merge that reports nothing new and still adds a dispatch PC. */
  lemma DispatchAddedSilently(out: seq<Variant>, variants: int, pcs: int)
    requires Merged([Variant("k", [1], [])], [Variant("k", [1], [5])], out, variants, pcs)
    ensures variants == 0 && pcs == 0 && !Same([Variant("k", [1], [])], out)
  {
    var ix, src := [Variant("k", [1], [])], [Variant("k", [1], [5])];
    assert ix[0].key == "k" && src[0].key == "k";
    assert Executed(ix, "k", 1) && HasKey(ix, "k");
    assert Dispatched(src, "k", 5) && !Dispatched(ix, "k", 5);
    assert Within(src, ix);
  }
}
