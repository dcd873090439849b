/**
 * Positions in the ordered lists of a schedule stage: identity search, the sorted
 * enumeration of a set of positions, and the slot rewrite that `reorder` performs
 * (src/te/schedule/schedule_lang.cc).
 */
module Positions {

  /** No element occurs twice. */
  predicate Distinct<T(==)>(s: seq<T>)
  {
    forall i, j :: 0 <= i < j < |s| ==> s[i] != s[j]
  }

  /** Two lists without repetitions and without common elements concatenate to one. */
  lemma DistinctAppend<T>(a: seq<T>, b: seq<T>)
    requires Distinct(a) && Distinct(b) && forall x :: x in a ==> x !in b
    ensures Distinct(a + b)
  {
    var c := a + b;
    forall i, j | 0 <= i < j < |c| ensures c[i] != c[j] {
      if j < |a| {
        assert c[i] == a[i] && c[j] == a[j];
      } else if i >= |a| {
        assert c[i] == b[i - |a|] && c[j] == b[j - |a|];
      } else {
        assert c[i] == a[i] && c[j] == b[j - |a|] && a[i] in a;
      }
    }
  }

  /** The elements of a sequence as a set. */
  function Elems<T>(s: seq<T>): set<T>
  {
    set x | x in s
  }

  /** The first position of `x` in `s`, or `|s|` when `x` does not occur. */
  function FirstIndex<T(==)>(s: seq<T>, x: T): (r: nat)
    ensures r <= |s|
    ensures r < |s| <==> x in s
    ensures r < |s| ==> s[r] == x
    ensures forall k :: 0 <= k < r ==> s[k] != x
  {
    if |s| == 0 then 0
    else if s[0] == x then 0
    else 1 + FirstIndex(s[1..], x)
  }

  /** The first position of `x` in `s` found by a linear scan; `|s|` when absent. */
  method FindNodeRef<T(==)>(s: seq<T>, x: T) returns (r: nat)
    ensures r == FirstIndex(s, x)
  {
    r := 0;
    while r < |s|
      invariant r <= |s|
      invariant forall k :: 0 <= k < r ==> s[k] != x
    {
      if s[r] == x {
        return;
      }
      r := r + 1;
    }
  }

  /** In a sequence without repetitions the first position of `s[i]` is `i`. */
  lemma FirstIndexOfDistinct<T>(s: seq<T>, i: nat)
    requires Distinct(s) && i < |s|
    ensures FirstIndex(s, s[i]) == i
  {
  }

  /** The first position of an element that does not occur earlier is its own position. */
  lemma FirstIndexAt<T>(s: seq<T>, i: nat)
    requires i < |s| && forall k :: 0 <= k < i ==> s[k] != s[i]
    ensures FirstIndex(s, s[i]) == i
  {
  }

  /** A sequence without repetitions has as many elements as its set. */
  lemma {:induction false} DistinctCard<T>(s: seq<T>)
    requires Distinct(s)
    ensures |Elems(s)| == |s|
  {
    if |s| > 0 {
      DistinctCard(s[1..]);
      assert Elems(s) == {s[0]} + Elems(s[1..]);
      assert s[0] !in Elems(s[1..]);
    }
  }

  /** Each element of a sequence without repetitions occurs exactly once. */
  lemma {:induction false} DistinctMultiplicity<T>(s: seq<T>, x: T)
    requires Distinct(s)
    ensures multiset(s)[x] == if x in s then 1 else 0
  {
    if |s| > 0 {
      DistinctMultiplicity(s[1..], x);
      assert s == [s[0]] + s[1..];
      assert multiset(s) == multiset([s[0]]) + multiset(s[1..]);
      assert s[0] !in s[1..];
    }
  }

  /** Two sequences without repetitions over the same elements are permutations of each other. */
  lemma DistinctPermutation<T>(a: seq<T>, b: seq<T>)
    requires Distinct(a) && Distinct(b) && Elems(a) == Elems(b)
    ensures multiset(a) == multiset(b)
  {
    forall x | true
      ensures multiset(a)[x] == multiset(b)[x]
    {
      DistinctMultiplicity(a, x);
      DistinctMultiplicity(b, x);
      assert x in a <==> x in Elems(a);
      assert x in b <==> x in Elems(b);
    }
  }

  /** Strictly increasing positions. */
  predicate Increasing(s: seq<nat>)
  {
    forall i, j :: 0 <= i < j < |s| ==> s[i] < s[j]
  }

  /** The number of positions of `P` before `j`. */
  function Rank(P: set<nat>, j: nat): nat
  {
    |Below(P, j)|
  }

  /** The positions of `P` before `j`. */
  function Below(P: set<nat>, j: nat): set<nat>
  {
    set p | p in P && p < j
  }

  /** In the increasing enumeration `s` of a set, the `k`-th element has rank `k`. */
  lemma RankOfIncreasing(s: seq<nat>, k: nat)
    requires Increasing(s) && k < |s|
    ensures Rank(Elems(s), s[k]) == k
  {
    var below := Below(Elems(s), s[k]);
    forall p | p in below ensures p in Elems(s[..k]) {
      var i :| 0 <= i < |s| && s[i] == p;
      assert i < k;
      assert s[..k][i] == p;
    }
    forall p | p in Elems(s[..k]) ensures p in below {
      var i :| 0 <= i < k && s[..k][i] == p;
      assert s[i] == p;
    }
    assert below == Elems(s[..k]);
    assert Distinct(s[..k]);
    DistinctCard(s[..k]);
  }

  /** The largest element of a non-empty finite set of positions. */
  lemma {:induction false} MaxOf(P: set<nat>) returns (m: nat)
    requires P != {}
    ensures m in P && forall q :: q in P ==> q <= m
    decreases |P|
  {
    var x :| x in P;
    if P == {x} {
      m := x;
      assert forall q :: q in P ==> q == x;
    } else {
      var m' := MaxOf(P - {x});
      m := if x < m' then m' else x;
      assert forall q :: q in P ==> q == x || q in P - {x};
    }
  }

  /** Every finite set of positions has an increasing enumeration. */
  lemma {:induction false} SortedOf(P: set<nat>) returns (s: seq<nat>)
    ensures Increasing(s) && Elems(s) == P && |s| == |P|
    decreases |P|
  {
    if P == {} {
      s := [];
    } else {
      var m := MaxOf(P);
      var s' := SortedOf(P - {m});
      s := s' + [m];
      assert forall i :: 0 <= i < |s'| ==> s'[i] in P - {m};
      assert forall i :: 0 <= i < |s'| ==> s'[i] < m;
      assert Elems(s) == Elems(s') + {m};
      assert |P - {m}| == |P| - 1;
    }
  }

  /**
   * Insertion sort of positions without repetitions: the result enumerates the same
   * positions in increasing order.
   */
  method SortPositions(ps: seq<nat>) returns (s: seq<nat>)
    requires Distinct(ps)
    ensures Increasing(s) && multiset(s) == multiset(ps)
  {
    s := [];
    var i := 0;
    while i < |ps|
      invariant 0 <= i <= |ps|
      invariant Increasing(s) && multiset(s) == multiset(ps[..i])
    {
      var p := ps[i];
      assert p !in s by {
        assert forall k :: 0 <= k < i ==> ps[..i][k] != p;
        assert p !in multiset(ps[..i]);
      }
      s := InsertPosition(s, p);
      assert ps[..i + 1] == ps[..i] + [p];
      i := i + 1;
    }
    assert ps[..i] == ps;
  }

  /** Inserts a new position into an increasing sequence, before the first larger one. */
  method InsertPosition(s: seq<nat>, p: nat) returns (t: seq<nat>)
    requires Increasing(s) && p !in s
    ensures Increasing(t) && multiset(t) == multiset(s) + multiset{p}
  {
    var j := 0;
    while j < |s| && s[j] < p
      invariant 0 <= j <= |s|
      invariant forall k :: 0 <= k < j ==> s[k] < p
    {
      j := j + 1;
    }
    assert s[..j] + s[j..] == s;
    t := s[..j] + [p] + s[j..];
    assert forall k :: j <= k < |s| ==> p < s[k] by {
      if j < |s| {
        assert p != s[j];
      }
    }
  }

  /**
   * The slot rewrite of `reorder`: the `k`-th smallest position of `P` receives
   * `order[k]`; every other position keeps its value.
   */
  function Reordered<T>(leaf: seq<T>, P: set<nat>, order: seq<T>): (r: seq<T>)
    ensures |r| == |leaf|
    ensures forall j :: 0 <= j < |leaf| && j !in P ==> r[j] == leaf[j]
  {
    seq(|leaf|, j requires 0 <= j < |leaf| =>
      if j in P && Rank(P, j) < |order| then order[Rank(P, j)] else leaf[j])
  }

  /** The hypotheses of a slot rewrite: `order[k]` sits at position `pos[k]` of `leaf`. */
  predicate NamedAt<T(==)>(leaf: seq<T>, pos: seq<nat>, order: seq<T>)
  {
    |pos| == |order| && forall k :: 0 <= k < |pos| ==> pos[k] < |leaf| && leaf[pos[k]] == order[k]
  }

  /** Distinct named elements sit at distinct positions. */
  lemma NamedAtDistinct<T>(leaf: seq<T>, pos: seq<nat>, order: seq<T>)
    requires NamedAt(leaf, pos, order) && Distinct(order)
    ensures Distinct(pos) && |Elems(pos)| == |order|
  {
    forall i, j | 0 <= i < j < |pos| ensures pos[i] != pos[j] {
      assert order[i] != order[j];
    }
    DistinctCard(pos);
  }

  /** The rewrite places `order[k]` at the `k`-th smallest named position. */
  lemma ReorderedAtSorted<T>(leaf: seq<T>, pos: seq<nat>, order: seq<T>, s: seq<nat>)
    requires NamedAt(leaf, pos, order) && Distinct(order)
    requires Increasing(s) && Elems(s) == Elems(pos)
    ensures |s| == |order|
    ensures forall k :: 0 <= k < |s| ==> s[k] < |leaf| && Reordered(leaf, Elems(pos), order)[s[k]] == order[k]
  {
    NamedAtDistinct(leaf, pos, order);
    assert Distinct(s);
    DistinctCard(s);
    forall k | 0 <= k < |s| ensures s[k] < |leaf| && Reordered(leaf, Elems(pos), order)[s[k]] == order[k] {
      RankOfIncreasing(s, k);
      assert s[k] in Elems(pos);
    }
  }

  /** A named position holds the named element of its rank. */
  lemma NamedSlot<T>(leaf: seq<T>, pos: seq<nat>, order: seq<T>, s: seq<nat>, j: nat) returns (a: nat)
    requires NamedAt(leaf, pos, order) && Distinct(order)
    requires Increasing(s) && Elems(s) == Elems(pos) && j in Elems(pos)
    ensures a < |s| == |order| && s[a] == j && j < |leaf|
    ensures Reordered(leaf, Elems(pos), order)[j] == order[a] == leaf[pos[a]]
  {
    ReorderedAtSorted(leaf, pos, order, s);
    assert j in Elems(s);
    a :| 0 <= a < |s| && s[a] == j;
  }

  /** The rewrite of a list without repetitions has no repetitions. */
  lemma ReorderedDistinct<T>(leaf: seq<T>, pos: seq<nat>, order: seq<T>, s: seq<nat>)
    requires NamedAt(leaf, pos, order) && Distinct(order) && Distinct(leaf)
    requires Increasing(s) && Elems(s) == Elems(pos)
    ensures Distinct(Reordered(leaf, Elems(pos), order))
  {
    var P := Elems(pos);
    var r := Reordered(leaf, P, order);
    forall i, j | 0 <= i < j < |r| ensures r[i] != r[j] {
      if i in P && j in P {
        var a := NamedSlot(leaf, pos, order, s, i);
        var b := NamedSlot(leaf, pos, order, s, j);
        assert a != b;
      } else if i in P {
        var a := NamedSlot(leaf, pos, order, s, i);
        assert pos[a] in P;
      } else if j in P {
        var b := NamedSlot(leaf, pos, order, s, j);
        assert pos[b] in P;
      }
    }
  }

  /** The rewrite keeps the set of elements. */
  lemma ReorderedElems<T>(leaf: seq<T>, pos: seq<nat>, order: seq<T>, s: seq<nat>)
    requires NamedAt(leaf, pos, order) && Distinct(order)
    requires Increasing(s) && Elems(s) == Elems(pos)
    ensures Elems(Reordered(leaf, Elems(pos), order)) == Elems(leaf)
  {
    var P := Elems(pos);
    var r := Reordered(leaf, P, order);
    ReorderedAtSorted(leaf, pos, order, s);
    forall x | x in Elems(r) ensures x in Elems(leaf) {
      var j :| 0 <= j < |r| && r[j] == x;
      if j in P {
        assert j in Elems(s);
        var a :| 0 <= a < |s| && s[a] == j;
        assert x == leaf[pos[a]];
      } else {
        assert x == leaf[j];
      }
    }
    forall x | x in Elems(leaf) ensures x in Elems(r) {
      var j :| 0 <= j < |leaf| && leaf[j] == x;
      if j in P {
        var a :| 0 <= a < |pos| && pos[a] == j;
        assert r[s[a]] == order[a];
      } else {
        assert r[j] == x;
      }
    }
  }

  /**
   * When `order[k]` sits at position `pos[k]` of a list without repetitions and the
   * named elements are distinct, the rewrite places `order` on the increasing
   * enumeration of the positions, and the result is a permutation of the list that
   * still has no repetitions.
   */
  lemma ReorderedPermutes<T>(leaf: seq<T>, pos: seq<nat>, order: seq<T>)
    requires Distinct(leaf) && Distinct(order) && NamedAt(leaf, pos, order)
    ensures Distinct(Reordered(leaf, Elems(pos), order))
    ensures multiset(Reordered(leaf, Elems(pos), order)) == multiset(leaf)
  {
    var s := SortedOf(Elems(pos));
    ReorderedDistinct(leaf, pos, order, s);
    ReorderedElems(leaf, pos, order, s);
    DistinctPermutation(Reordered(leaf, Elems(pos), order), leaf);
  }

  /**
   * The rewrite keeps the named elements in the order given, each on a position that a
   * named element occupied before.
   */
  lemma ReorderedPlaces<T>(leaf: seq<T>, pos: seq<nat>, order: seq<T>)
    requires Distinct(leaf) && Distinct(order) && NamedAt(leaf, pos, order)
    ensures var r := Reordered(leaf, Elems(pos), order);
      (forall a, b :: 0 <= a < b < |order| ==> FirstIndex(r, order[a]) < FirstIndex(r, order[b]))
      && forall k :: 0 <= k < |order| ==> FirstIndex(r, order[k]) < |leaf| && leaf[FirstIndex(r, order[k])] in order
  {
    var r := Reordered(leaf, Elems(pos), order);
    var s := SortedOf(Elems(pos));
    ReorderedDistinct(leaf, pos, order, s);
    ReorderedAtSorted(leaf, pos, order, s);
    forall k | 0 <= k < |order| ensures FirstIndex(r, order[k]) == s[k] {
      FirstIndexOfDistinct(r, s[k]);
    }
    forall k | 0 <= k < |order| ensures leaf[s[k]] in order {
      assert s[k] in Elems(pos);
      var a :| 0 <= a < |pos| && pos[a] == s[k];
    }
  }

  /** Sequences with the same multiset have the same elements. */
  lemma SameElems<T>(a: seq<T>, b: seq<T>)
    requires multiset(a) == multiset(b)
    ensures Elems(a) == Elems(b)
  {
    forall x ensures x in a <==> x in b {
      assert x in a <==> x in multiset(a);
      assert x in b <==> x in multiset(b);
    }
  }

  /**
   * Writing `order[k]` into the `k`-th smallest named position, and nothing else,
   * produces the slot rewrite.
   */
  lemma ReorderedBySlots<T>(leaf: seq<T>, pos: seq<nat>, order: seq<T>, s: seq<nat>, res: seq<T>)
    requires NamedAt(leaf, pos, order) && Distinct(order)
    requires Increasing(s) && Elems(s) == Elems(pos) && |res| == |leaf|
    requires forall k :: 0 <= k < |s| && k < |order| ==> s[k] < |res| && res[s[k]] == order[k]
    requires forall j :: 0 <= j < |leaf| && j !in s ==> res[j] == leaf[j]
    ensures res == Reordered(leaf, Elems(pos), order)
  {
    ReorderedAtSorted(leaf, pos, order, s);
    var target := Reordered(leaf, Elems(pos), order);
    forall j | 0 <= j < |leaf| ensures res[j] == target[j] {
      if j in s {
        var k :| 0 <= k < |s| && s[k] == j;
      } else {
        assert j !in Elems(pos);
      }
    }
  }
}
