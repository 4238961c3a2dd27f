/** Sets and sorted sequences of the collection types the tools iterate over. */
module Collections {

  /** A member of a nonempty set. */
  lemma Member<T>(s: set<T>) returns (x: T)
    requires s != {}
    ensures x in s
  {
    x :| x in s;
  }

  /** An element that tells two sets apart. */
  lemma Differ<T>(s: set<T>, t: set<T>) returns (x: T)
    requires s != t
    ensures (x in s) != (x in t)
  {
    x :| x in s + t && (x in s) != (x in t);
  }

  lemma {:induction false} SubsetSize<T>(a: set<T>, b: set<T>)
    requires forall x :: x in a ==> x in b
    ensures |a| <= |b|
    decreases |a|
  {
    if a != {} {
      var x := Member(a);
      SubsetSize(a - {x}, b - {x});
    }
  }

  lemma SamePairs<K, T>(a: set<(K, T)>, b: set<(K, T)>)
    requires forall q, x :: (q, x) in a <==> (q, x) in b
    ensures a == b
  {
    forall p | p in a ensures p in b { assert p == (p.0, p.1); }
    forall p | p in b ensures p in a { assert p == (p.0, p.1); }
  }

  /** Pairing a key with elements that it was not paired with adds that many pairs. */
  lemma {:induction false} AddedPairs<K, T>(before: set<(K, T)>, after: set<(K, T)>, k: K, added: set<T>)
    requires forall q, x :: (q, x) in after <==> (q, x) in before || (q == k && x in added)
    requires forall x :: x in added ==> (k, x) !in before
    ensures |after| == |before| + |added|
    decreases |added|
  {
    if added == {} {
      SamePairs(before, after);
    } else {
      var x := Member(added);
      AddedPairs(before, after - {(k, x)}, k, added - {x});
    }
  }

  ghost predicate NoRepeats<T>(s: seq<T>) { forall i, j :: 0 <= i < j < |s| ==> s[i] != s[j] }

  /** A sequence has at least as many entries as elements, and as many if none repeats. */
  lemma {:induction false} ElementCount<T>(s: seq<T>, elems: set<T>)
    requires forall x :: x in elems <==> x in s
    ensures |elems| <= |s| && (NoRepeats(s) ==> |elems| == |s|)
  {
    if s == [] {
      assert elems == {};
    } else {
      var n := |s| - 1;
      var t, x := s[..n], s[n];
      assert s == t + [x];
      if x in t {
        ElementCount(t, elems);
      } else {
        ElementCount(t, elems - {x});
      }
    }
  }

  /** Some order of the elements of a set, as iterating over it yields. */
  method Ordered<T(==)>(s: set<T>) returns (q: seq<T>)
    ensures forall x :: x in q <==> x in s
    ensures forall i, j :: 0 <= i < j < |q| ==> q[i] != q[j]
  {
    q := [];
    var todo := s;
    while todo != {}
      invariant todo <= s
      invariant forall i, j :: 0 <= i < j < |q| ==> q[i] != q[j]
      invariant forall x :: x in q <==> x in s && x !in todo
      decreases todo
    {
      var x :| x in todo;
      q, todo := q + [x], todo - {x};
    }
  }

  // ---- sorted sequences ----

  ghost predicate Sorted(s: seq<int>) { forall i, j :: 0 <= i < j < |s| ==> s[i] < s[j] }

  /** Inserting into a sorted, duplicate-free sequence. */
  method Insert(s: seq<int>, x: int) returns (r: seq<int>)
    requires Sorted(s)
    ensures Sorted(r) && forall y :: y in r <==> y == x || y in s
  {
    var i := 0;
    while i < |s| && s[i] < x
      invariant 0 <= i <= |s| && forall j :: 0 <= j < i ==> s[j] < x
    {
      i := i + 1;
    }
    if i < |s| && s[i] == x { return s; }
    r := s[..i] + [x] + s[i..];
    InsertedAt(s, i, x);
  }

  lemma InsertedAt(s: seq<int>, i: nat, x: int)
    requires Sorted(s) && i <= |s|
    requires (forall j :: 0 <= j < i ==> s[j] < x) && (i < |s| ==> x < s[i])
    ensures Sorted(s[..i] + [x] + s[i..])
    ensures forall y :: y in s[..i] + [x] + s[i..] <==> y == x || y in s
  {
    var r := s[..i] + [x] + s[i..];
    assert forall j :: 0 <= j < |r| ==> r[j] == if j < i then s[j] else if j == i then x else s[j - 1];
    assert s == s[..i] + s[i..];
  }

  /** `sorted(x)`. */
  method SortedSeq(x: set<int>) returns (r: seq<int>)
    ensures Sorted(r) && forall a :: a in r <==> a in x
  {
    var q := Ordered(x);
    r := [];
    for i := 0 to |q|
      invariant Sorted(r) && forall a :: a in r <==> a in q[..i]
    {
      assert q[..i + 1] == q[..i] + [q[i]];
      r := Insert(r, q[i]);
    }
    assert q[..|q|] == q;
  }
}
