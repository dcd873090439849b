/**
 * Compound-index algebra (src/tsl/te/schedule/shape.cc): purity, identity equality of
 * compound indices and of index lists, search, the kernel-term filter of the
 * convolution rule, and the index-to-extent lookup table.
 *
 * Terms are compared by identity, which in this model is `==` on `Term`.
 */
module CIndexAlgebra {
  import opened Wrappers
  import opened Ir

  /** A compound index is pure when it consists of a single term. */
  predicate IsPure(c: CIndex) { |c| == 1 }

  /**
   * Term-by-term identity comparison of two compound indices.
   * Equal exactly when the lengths agree and every pair of terms is identical.
   */
  method IsCIndexEqual(ca: CIndex, cb: CIndex) returns (eq: bool)
    ensures eq <==> (|ca| == |cb| && forall i :: 0 <= i < |ca| ==> ca[i] == cb[i])
    ensures eq <==> ca == cb
  {
    if |ca| != |cb| {
      return false;
    }
    var i := 0;
    while i < |ca|
      invariant 0 <= i <= |ca|
      invariant forall j :: 0 <= j < i ==> ca[j] == cb[j]
    {
      if ca[i] != cb[i] {
        return false;
      }
      i := i + 1;
    }
    return true;
  }

  /**
   * Position of the first compound index in `targets` identical to `c`, or
   * `|targets|` when there is none.
   */
  method FindCIndex(c: CIndex, targets: CIndices) returns (loc: nat)
    ensures loc <= |targets|
    ensures loc < |targets| ==> targets[loc] == c
    ensures forall j :: 0 <= j < loc ==> targets[j] != c
    ensures loc == |targets| <==> c !in targets
    ensures loc == IndexOf(c, targets)
  {
    var i := 0;
    while i < |targets|
      invariant 0 <= i <= |targets|
      invariant forall j :: 0 <= j < i ==> targets[j] != c
    {
      var eq := IsCIndexEqual(c, targets[i]);
      if eq {
        IndexOfFirst(c, targets, i);
        return i;
      }
      i := i + 1;
    }
    IndexOfAbsent(c, targets);
    return |targets|;
  }

  /** The position of the first occurrence of `c` in `targets`, or `|targets|`. */
  function IndexOf(c: CIndex, targets: CIndices): (r: nat)
    ensures r <= |targets|
  {
    if |targets| == 0 then 0
    else if targets[0] == c then 0
    else 1 + IndexOf(c, targets[1..])
  }

  /** `IndexOf` lands on the first position holding `c`. */
  lemma {:induction false} IndexOfFirst(c: CIndex, targets: CIndices, i: nat)
    requires i < |targets| && targets[i] == c
    requires forall j :: 0 <= j < i ==> targets[j] != c
    ensures IndexOf(c, targets) == i
    decreases i
  {
    if i > 0 {
      IndexOfFirst(c, targets[1..], i - 1);
    }
  }

  /** `IndexOf` is the length exactly when `c` does not occur. */
  lemma {:induction false} IndexOfAbsent(c: CIndex, targets: CIndices)
    requires c !in targets
    ensures IndexOf(c, targets) == |targets|
    decreases |targets|
  {
    if |targets| > 0 {
      assert targets[0] != c;
      assert c !in targets[1..] by {
        forall k | 0 <= k < |targets| - 1 ensures targets[1..][k] != c {
          assert targets[1..][k] == targets[k + 1];
        }
      }
      IndexOfAbsent(c, targets[1..]);
    }
  }

  /**
   * Pairwise identity comparison of two index lists: equal exactly when the lists
   * have the same length and every pair of compound indices is identity-equal.
   */
  method IsCIndicesEqual(ca: CIndices, cb: CIndices) returns (eq: bool)
    ensures eq <==> (|ca| == |cb| && forall i :: 0 <= i < |ca| ==> ca[i] == cb[i])
    ensures eq <==> ca == cb
  {
    if |ca| != |cb| {
      return false;
    }
    var i := 0;
    while i < |ca|
      invariant 0 <= i <= |ca|
      invariant forall j :: 0 <= j < i ==> ca[j] == cb[j]
    {
      var e := IsCIndexEqual(ca[i], cb[i]);
      if !e {
        return false;
      }
      i := i + 1;
    }
    return true;
  }

  /** Fatal conditions of the compound-index helpers. */
  datatype CIndexError = KernelIndexNotPure | InputIndexNotPair

  /** `c` with every term identical to `t` removed, order kept. */
  function Without(c: CIndex, t: Term): (r: CIndex)
    ensures |r| <= |c|
    ensures forall i :: 0 <= i < |r| ==> r[i] in c && r[i] != t
    ensures forall i :: 0 <= i < |c| && c[i] != t ==> c[i] in r
  {
    if |c| == 0 then []
    else if c[0] == t then Without(c[1..], t)
    else
      assert c == [c[0]] + c[1..];
      [c[0]] + Without(c[1..], t)
  }

  /** Filtering removes every copy of `t` and keeps every other term as often as it occurs. */
  lemma {:induction false} WithoutCount(c: CIndex, t: Term, x: Term)
    ensures multiset(Without(c, t))[x] == if x == t then 0 else multiset(c)[x]
    decreases |c|
  {
    if |c| > 0 {
      assert c == [c[0]] + c[1..];
      WithoutCount(c[1..], t, x);
    }
  }

  /** The result the convolution's spatial-index filter must produce. */
  function ConvExtract(c: CIndex, rc: CIndex): Result<CIndex, CIndexError>
  {
    if |rc| != 1 then Err(KernelIndexNotPure)
    else if |c| != 2 then Err(InputIndexNotPair)
    else Ok(Without(c, rc[0]))
  }

  /**
   * The spatial index of a convolution output: the two-term input index `c` minus the
   * term of the pure kernel index `rc`.
   */
  method ExtractNonReductionForConv(c: CIndex, rc: CIndex) returns (r: Result<CIndex, CIndexError>)
    ensures |rc| != 1 ==> r == Err(KernelIndexNotPure)
    ensures |rc| == 1 && |c| != 2 ==> r == Err(InputIndexNotPair)
    ensures |rc| == 1 && |c| == 2 ==> r == Ok(Without(c, rc[0]))
    ensures r == ConvExtract(c, rc)
  {
    if |rc| != 1 {
      return Err(KernelIndexNotPure);
    }
    if |c| != 2 {
      return Err(InputIndexNotPair);
    }
    var ret: CIndex := [];
    var i := 0;
    while i < |c|
      invariant 0 <= i <= |c|
      invariant ret == Without(c[..i], rc[0])
    {
      WithoutSnoc(c[..i], c[i], rc[0]);
      assert c[..i + 1] == c[..i] + [c[i]];
      if c[i] != rc[0] {
        ret := ret + [c[i]];
      }
      i := i + 1;
    }
    assert c[..i] == c;
    return Ok(ret);
  }

  /** Filtering distributes over appending one term. */
  lemma {:induction false} WithoutSnoc(c: CIndex, x: Term, t: Term)
    ensures Without(c + [x], t) == Without(c, t) + (if x == t then [] else [x])
    decreases |c|
  {
    if |c| == 0 {
      assert c + [x] == [x];
      assert [x][1..] == [];
    } else {
      assert (c + [x])[0] == c[0];
      assert (c + [x])[1..] == c[1..] + [x];
      WithoutSnoc(c[1..], x, t);
    }
  }

  /** Filtering the conv rule's two-term index drops exactly the occurrences of the term. */
  lemma ConvFilterPair(u: Term, w: Term, t: Term)
    ensures Without([u, w], t) == (if u == t then [] else [u]) + (if w == t then [] else [w])
  {
    assert [u, w][1..] == [w];
    assert [w][1..] == [];
  }

  /** One entry of the index-to-extent table: a compound index and its extent. */
  datatype LutEntry = LutEntry(key: CIndex, extent: int)

  /**
   * Lookup in the index-to-extent table: the extent of the first entry whose index is
   * identity-equal to `c`, or `None` when no entry matches.
   */
  method LutLookup(lut: seq<LutEntry>, c: CIndex) returns (r: Option<int>)
    ensures r.None? <==> forall k :: 0 <= k < |lut| ==> lut[k].key != c
    ensures r.Some? ==> exists k :: (0 <= k < |lut| && lut[k].key == c && lut[k].extent == r.value
                                     && forall j :: 0 <= j < k ==> lut[j].key != c)
  {
    var i := 0;
    while i < |lut|
      invariant 0 <= i <= |lut|
      invariant forall j :: 0 <= j < i ==> lut[j].key != c
    {
      var eq := IsCIndexEqual(lut[i].key, c);
      if eq {
        return Some(lut[i].extent);
      }
      i := i + 1;
    }
    return None;
  }
}
