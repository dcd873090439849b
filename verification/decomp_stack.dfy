/**
 * The decomposition context of a stage (src/tsl/te/schedule/decomp_stack.cc): one stack
 * of `{factor, path variable}` entries per output dimension, entry 0 at the bottom
 * (the coarsest tile) and the last entry at the top (the finest tile). Stacks are found
 * by the identity of the bottom entry's path variable.
 */
module DecompContext {
  import opened Wrappers
  import opened Ir

  /** One decomposition level of one dimension. */
  datatype DecompEntry = DecompEntry(factor: int, pathivar: IterVar,
                                     leafVars: seq<IterVar>, allVars: seq<IterVar>)

  /** The decomposition levels of one dimension, bottom entry first. */
  datatype DecompStack = DecompStack(iterType: IterVarType, entries: seq<DecompEntry>)
  {
    /** Number of entries. */
    function Size(): nat { |entries| }

    /** The entry at level `i`. */
    function At(i: nat): (e: DecompEntry)
      requires i < Size()
      ensures e in entries
    {
      entries[i]
    }

    /** The factor of the top (finest) entry. */
    function Finest(): (f: int)
      requires Size() > 0
      ensures f == At(Size() - 1).factor
    {
      entries[|entries| - 1].factor
    }
  }

  /** One stack per dimension. */
  type DecomposeCtx = seq<DecompStack>

  /** An entry at a given factor whose path variable is its only leaf and only variable. */
  function CreateEntry(factor: int, pathivar: IterVar): (e: DecompEntry)
    ensures e.factor == factor && e.pathivar == pathivar
    ensures e.leafVars == [pathivar] && e.allVars == [pathivar]
  {
    DecompEntry(factor, pathivar, [pathivar], [pathivar])
  }

  /** A stack of the given iteration kind holding no entry yet. */
  function CreateStack(iterType: IterVarType): (s: DecompStack)
    ensures s.iterType == iterType && s.Size() == 0
  {
    DecompStack(iterType, [])
  }

  /** Fatal conditions of `find`. */
  datatype DecompError = EmptyStack | NotFound

  /** The stack's bottom entry has the path variable `q`. */
  predicate Matches(s: DecompStack, q: Term)
    requires s.Size() > 0
  {
    q == VarTerm(s.entries[0].pathivar.v)
  }

  /** The stacks before position `k` are all non-empty and none of them matches `q`. */
  predicate PassedOver(ctx: DecomposeCtx, q: Term, k: nat)
    requires k <= |ctx|
  {
    forall j :: 0 <= j < k ==> ctx[j].Size() > 0 && !Matches(ctx[j], q)
  }

  /** The stack for index variable `q`, as a specification. */
  function Lookup(ctx: DecomposeCtx, q: Term): (r: Result<DecompStack, DecompError>)
    ensures r.Ok? ==> r.value in ctx && r.value.Size() > 0 && Matches(r.value, q)
  {
    if |ctx| == 0 then Err(NotFound)
    else if ctx[0].Size() == 0 then Err(EmptyStack)
    else if Matches(ctx[0], q) then Ok(ctx[0])
    else Lookup(ctx[1..], q)
  }

  /**
   * `Lookup` stops at the first stack that is empty or whose bottom path variable is `q`
   * (position `k`; every stack before it is non-empty and does not match): it fails with
   * `EmptyStack` on an empty stack, returns a matching one, and fails with `NotFound`
   * when no stack stops it.
   */
  lemma {:induction false} LookupSpec(ctx: DecomposeCtx, q: Term) returns (k: nat)
    ensures k <= |ctx| && PassedOver(ctx, q, k)
    ensures k < |ctx| ==> ctx[k].Size() == 0 || Matches(ctx[k], q)
    ensures Lookup(ctx, q) == (if k == |ctx| then Err(NotFound)
                               else if ctx[k].Size() == 0 then Err(EmptyStack)
                               else Ok(ctx[k]))
    decreases |ctx|
  {
    if |ctx| == 0 || ctx[0].Size() == 0 || Matches(ctx[0], q) {
      return 0;
    }
    var rest := ctx[1..];
    var k' := LookupSpec(rest, q);
    k := k' + 1;
    forall j | 0 <= j < k ensures ctx[j].Size() > 0 && !Matches(ctx[j], q) {
      if j > 0 { assert ctx[j] == rest[j - 1]; }
    }
    if k' < |rest| {
      assert ctx[k] == rest[k'];
    }
  }

  /** The stack for index variable `q`: a linear search over the context. */
  method Find(ctx: DecomposeCtx, q: Term) returns (r: Result<DecompStack, DecompError>)
    ensures r == Lookup(ctx, q)
    ensures r.Ok? ==> r.value in ctx && r.value.Size() > 0 && Matches(r.value, q)
  {
    var i := 0;
    while i < |ctx|
      invariant 0 <= i <= |ctx|
      invariant Lookup(ctx, q) == Lookup(ctx[i..], q)
    {
      assert ctx[i..][0] == ctx[i];
      assert ctx[i..][1..] == ctx[i + 1..];
      if ctx[i].Size() == 0 {
        return Err(EmptyStack);
      }
      if q == VarTerm(ctx[i].entries[0].pathivar.v) {
        return Ok(ctx[i]);
      }
      i := i + 1;
    }
    return Err(NotFound);
  }
}
