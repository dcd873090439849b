/**
 * Validation in the TSL expression constructors (src/tsl/tir/expr.cc): the binary-node
 * constructor, application of a commutative combiner, the reduction constructor, and
 * the element-shape back-propagation of Add and of a tensor read.
 */
module TslExprs {
  import opened Wrappers
  import opened Ir

  /** Fatal conditions of the constructors. */
  datatype ExprError =
    | Undefined        // an operand that is not defined
    | TypeMismatch     // operands of different element types
    | SizeMismatch     // combiner argument lists of different sizes
    | AxisNotReduce    // a reduction axis not created as a reduction axis
    | InitCount        // initial values not one per source
    | InitKind         // an initial value of a kind the reduction does not accept
    | OutOfRange       // an array access past its end
    | NoPropback       // a node with no element-shape back-propagation

  /**
   * The Add constructor (new node `nid`): both operands defined and of one element
   * type, which becomes the node's.
   */
  function MakeAdd(a: Option<TslExpr>, b: Option<TslExpr>, nid: nat): (r: Result<TslExpr, ExprError>)
    ensures r.Ok? <==> a.Some? && b.Some? && a.value.dtype == b.value.dtype
    ensures r.Ok? ==> r.value == Add(nid, a.value.dtype, a.value, b.value)
    ensures r.Ok? ==> r.value.dtype == r.value.a.dtype == r.value.b.dtype
    ensures a.None? ==> r == Err(Undefined)
  {
    if a.None? then Err(Undefined)
    else if b.None? then Err(Undefined)
    else if a.value.dtype != b.value.dtype then Err(TypeMismatch)
    else Ok(Add(nid, a.value.dtype, a.value, b.value))
  }

  /**
   * The value map after `n` rounds of binding `lhs[i]` to `a[i]` and then `rhs[i]` to
   * `b[i]`, keyed by the placeholder's node id; a later binding replaces an earlier one.
   */
  function ValueMap(lhs: seq<TslExpr>, rhs: seq<TslExpr>, a: seq<TslExpr>, b: seq<TslExpr>, n: nat)
    : map<nat, TslExpr>
    requires n <= |lhs| && n <= |rhs| && n <= |a| && n <= |b|
  {
    if n == 0 then map[]
    else ValueMap(lhs, rhs, a, b, n - 1)[lhs[n - 1].nid := a[n - 1]][rhs[n - 1].nid := b[n - 1]]
  }

  /** The placeholder ids of the first `n` rounds. */
  function BoundIds(lhs: seq<TslExpr>, rhs: seq<TslExpr>, n: nat): set<nat>
    requires n <= |lhs| && n <= |rhs|
  {
    (set i | 0 <= i < n :: lhs[i].nid) + (set i | 0 <= i < n :: rhs[i].nid)
  }

  /** All placeholders of the first `n` rounds have different ids. */
  predicate DistinctIds(lhs: seq<TslExpr>, rhs: seq<TslExpr>, n: nat)
    requires n <= |lhs| && n <= |rhs|
  {
    (forall i, j :: 0 <= i < n && 0 <= j < n && i != j ==> lhs[i].nid != lhs[j].nid && rhs[i].nid != rhs[j].nid)
    && (forall i, j :: 0 <= i < n && 0 <= j < n ==> lhs[i].nid != rhs[j].nid)
  }

  /** The value map binds exactly the placeholders of the first `n` rounds. */
  lemma {:induction false} ValueMapKeys(lhs: seq<TslExpr>, rhs: seq<TslExpr>, a: seq<TslExpr>,
                                        b: seq<TslExpr>, n: nat)
    requires n <= |lhs| && n <= |rhs| && n <= |a| && n <= |b|
    ensures ValueMap(lhs, rhs, a, b, n).Keys == BoundIds(lhs, rhs, n)
    decreases n
  {
    if n > 0 {
      ValueMapKeys(lhs, rhs, a, b, n - 1);
      assert (set i | 0 <= i < n :: lhs[i].nid) == (set i | 0 <= i < n - 1 :: lhs[i].nid) + {lhs[n - 1].nid};
      assert (set i | 0 <= i < n :: rhs[i].nid) == (set i | 0 <= i < n - 1 :: rhs[i].nid) + {rhs[n - 1].nid};
    }
  }

  /** With distinct placeholders the value map binds each `lhs[i]` to `a[i]` and each `rhs[i]` to `b[i]`. */
  lemma {:induction false} ValueMapBinds(lhs: seq<TslExpr>, rhs: seq<TslExpr>, a: seq<TslExpr>,
                                         b: seq<TslExpr>, n: nat)
    requires n <= |lhs| && n <= |rhs| && n <= |a| && n <= |b|
    requires DistinctIds(lhs, rhs, n)
    ensures forall i :: 0 <= i < n ==> lhs[i].nid in ValueMap(lhs, rhs, a, b, n)
                                       && ValueMap(lhs, rhs, a, b, n)[lhs[i].nid] == a[i]
    ensures forall i :: 0 <= i < n ==> rhs[i].nid in ValueMap(lhs, rhs, a, b, n)
                                       && ValueMap(lhs, rhs, a, b, n)[rhs[i].nid] == b[i]
    decreases n
  {
    if n > 0 {
      assert DistinctIds(lhs, rhs, n - 1);
      ValueMapBinds(lhs, rhs, a, b, n - 1);
      var prev := ValueMap(lhs, rhs, a, b, n - 1);
      var m := ValueMap(lhs, rhs, a, b, n);
      assert m == prev[lhs[n - 1].nid := a[n - 1]][rhs[n - 1].nid := b[n - 1]];
      forall i | 0 <= i < n - 1
        ensures lhs[i].nid in m && m[lhs[i].nid] == a[i] && rhs[i].nid in m && m[rhs[i].nid] == b[i]
      {
        assert lhs[i].nid != lhs[n - 1].nid && lhs[i].nid != rhs[n - 1].nid;
        assert rhs[i].nid != lhs[n - 1].nid && rhs[i].nid != rhs[n - 1].nid;
      }
      assert lhs[n - 1].nid != rhs[n - 1].nid;
    }
  }

  /** Replace every placeholder whose id `vm` binds; other nodes are rebuilt around their operands. */
  function Substitute(e: TslExpr, vm: map<nat, TslExpr>): TslExpr
    decreases e
  {
    match e
    case TslVar(nid, _, _) => if nid in vm then vm[nid] else e
    case Add(nid, t, a, b) => Add(nid, t, Substitute(a, vm), Substitute(b, vm))
    case Gemm(nid, t, a, b, g) => Gemm(nid, t, Substitute(a, vm), Substitute(b, vm), g)
    case Conv(nid, t, a, b, c) => Conv(nid, t, Substitute(a, vm), Substitute(b, vm), c)
    case _ => e
  }

  /** Substituting with nothing bound changes nothing. */
  lemma {:induction false} SubstituteEmpty(e: TslExpr)
    ensures Substitute(e, map[]) == e
    decreases e
  {
    match e
    case Add(_, _, a, b) => SubstituteEmpty(a); SubstituteEmpty(b);
    case Gemm(_, _, a, b, _) => SubstituteEmpty(a); SubstituteEmpty(b);
    case Conv(_, _, a, b, _) => SubstituteEmpty(a); SubstituteEmpty(b);
    case _ =>
  }

  /** The placeholder ids occurring in `e` where substitution reaches. */
  function Placeholders(e: TslExpr): set<nat>
    decreases e
  {
    match e
    case TslVar(nid, _, _) => {nid}
    case Add(_, _, a, b) => Placeholders(a) + Placeholders(b)
    case Gemm(_, _, a, b, _) => Placeholders(a) + Placeholders(b)
    case Conv(_, _, a, b, _) => Placeholders(a) + Placeholders(b)
    case _ => {}
  }

  /** After substitution no bound placeholder is left, unless a bound value brings one back. */
  lemma {:induction false} SubstituteRemoves(e: TslExpr, vm: map<nat, TslExpr>)
    requires forall k :: k in vm ==> Placeholders(vm[k]) !! vm.Keys
    ensures Placeholders(Substitute(e, vm)) !! vm.Keys
    decreases e
  {
    match e
    case Add(_, _, a, b) => SubstituteRemoves(a, vm); SubstituteRemoves(b, vm);
    case Gemm(_, _, a, b, _) => SubstituteRemoves(a, vm); SubstituteRemoves(b, vm);
    case Conv(_, _, a, b, _) => SubstituteRemoves(a, vm); SubstituteRemoves(b, vm);
    case _ =>
  }

  /** The combiner's results with the value map substituted. */
  function Substituted(result: seq<TslExpr>, vm: map<nat, TslExpr>): (r: seq<TslExpr>)
    ensures |r| == |result|
  {
    seq(|result|, k requires 0 <= k < |result| => Substitute(result[k], vm))
  }

  /** Applying combiner `c` to argument lists `a` and `b`, as a specification. */
  function ApplySpec(c: Combiner, a: seq<TslExpr>, b: seq<TslExpr>): Result<seq<TslExpr>, ExprError>
  {
    if |a| != |b| || |c.lhs| != |a| || |c.rhs| != |b| then Err(SizeMismatch)
    else Ok(Substituted(c.result, ValueMap(c.lhs, c.rhs, a, b, |a|)))
  }

  /** Apply the combiner: check the sizes, bind the placeholders in a loop, substitute. */
  method ApplyCombiner(c: Combiner, a: seq<TslExpr>, b: seq<TslExpr>) returns (r: Result<seq<TslExpr>, ExprError>)
    ensures r == ApplySpec(c, a, b)
    ensures r.Ok? ==> |r.value| == |c.result|
  {
    if |a| != |b| || |c.lhs| != |a| || |c.rhs| != |b| {
      return Err(SizeMismatch);
    }
    var vm: map<nat, TslExpr> := map[];
    var i := 0;
    while i < |a|
      invariant 0 <= i <= |a|
      invariant vm == ValueMap(c.lhs, c.rhs, a, b, i)
    {
      vm := vm[c.lhs[i].nid := a[i]];
      vm := vm[c.rhs[i].nid := b[i]];
      i := i + 1;
    }
    return Ok(Substituted(c.result, vm));
  }

  /** The sum combiner: placeholders `x` and `y`, result `x + y` (node `rid`), identity `zero`. */
  function SumCombiner(x: TslExpr, y: TslExpr, rid: nat, zero: TslExpr): Combiner
  {
    Combiner([x], [y], [Add(rid, x.dtype, x, y)], [zero])
  }

  /** Applying the sum combiner to `p` and `q` gives their sum. */
  lemma SumCombinerAdds(x: TslExpr, y: TslExpr, rid: nat, zero: TslExpr, p: TslExpr, q: TslExpr)
    requires x.TslVar? && y.TslVar? && x.nid != y.nid
    ensures ApplySpec(SumCombiner(x, y, rid, zero), [p], [q]) == Ok([Add(rid, x.dtype, p, q)])
  {
    var vm := ValueMap([x], [y], [p], [q], 1);
    assert ValueMap([x], [y], [p], [q], 0) == map[];
    assert vm == map[][x.nid := p][y.nid := q];
    assert Substitute(x, vm) == p && Substitute(y, vm) == q;
    assert Substituted([Add(rid, x.dtype, x, y)], vm) == [Add(rid, x.dtype, p, q)];
  }

  /** The boolean constant true, the default reduction condition. */
  function ConstTrue(): PrimExpr { IntImm(Bool(), 1) }

  /** The reduction constructor (new node `nid`), as a specification. */
  function ReduceSpec(c: Combiner, src: Option<seq<TslExpr>>, axis: seq<IterVar>, cond: Option<PrimExpr>,
                      valueIndex: int, init: seq<TslExpr>, nid: nat): Result<TslExpr, ExprError>
  {
    if exists i :: 0 <= i < |axis| && axis[i].iterType != CommReduce then Err(AxisNotReduce)
    else if src.None? then Err(Undefined)
    else if |init| != 0 && |init| != |src.value| then Err(InitCount)
    else if |init| != 0 then Err(InitKind)
    else if !(0 <= valueIndex < |src.value|) then Err(OutOfRange)
    else
      var condition := if cond.Some? then cond.value else ConstTrue();
      Ok(Reduce(nid, src.value[valueIndex].dtype, c, src.value, axis, condition, valueIndex, init))
  }

  /** The reduction constructor: check each axis, default the condition, check the initial values. */
  method MakeReduce(c: Combiner, src: Option<seq<TslExpr>>, axis: seq<IterVar>, cond: Option<PrimExpr>,
                    valueIndex: int, init: seq<TslExpr>, nid: nat) returns (r: Result<TslExpr, ExprError>)
    ensures r == ReduceSpec(c, src, axis, cond, valueIndex, init, nid)
  {
    var i := 0;
    while i < |axis|
      invariant 0 <= i <= |axis|
      invariant forall j :: 0 <= j < i ==> axis[j].iterType == CommReduce
    {
      if axis[i].iterType != CommReduce {
        return Err(AxisNotReduce);
      }
      i := i + 1;
    }
    var condition := if cond.Some? then cond.value else ConstTrue();
    if src.None? {
      return Err(Undefined);
    }
    if |init| != 0 {
      if |init| != |src.value| {
        return Err(InitCount);
      }
      // The kind check accepts integer and float immediates and plain tensor reads; the
      // first initial value is a TSL node, which is none of them.
      return Err(InitKind);
    }
    if !(0 <= valueIndex < |src.value|) {
      return Err(OutOfRange);
    }
    return Ok(Reduce(nid, src.value[valueIndex].dtype, c, src.value, axis, condition, valueIndex, init));
  }

  /**
   * A reduction is built exactly when every axis is a reduction axis, the source list is
   * defined, no initial value is given and the value index is in range; it then has the
   * selected source's element type and a true condition unless one was given.
   */
  lemma ReduceSpecOk(c: Combiner, src: Option<seq<TslExpr>>, axis: seq<IterVar>, cond: Option<PrimExpr>,
                     valueIndex: int, init: seq<TslExpr>, nid: nat)
    ensures ReduceSpec(c, src, axis, cond, valueIndex, init, nid).Ok? <==>
      (forall i :: 0 <= i < |axis| ==> axis[i].iterType == CommReduce)
      && src.Some? && |init| == 0 && 0 <= valueIndex < |src.value|
    ensures ReduceSpec(c, src, axis, cond, valueIndex, init, nid).Ok? ==>
      var e := ReduceSpec(c, src, axis, cond, valueIndex, init, nid).value;
      e.dtype == src.value[valueIndex].dtype && e.source == src.value && e.axis == axis
      && e.condition == (if cond.None? then ConstTrue() else cond.value)
  {
  }

  /** The element shapes an Add hands back to its two operands: its own, twice. */
  function PropbackElemshape(e: TslExpr, source: seq<int>): (r: Result<seq<seq<int>>, ExprError>)
    ensures e.Add? ==> r == Ok([source, source])
    ensures e.ProducerLoad? ==> r == Ok([])
    ensures !e.Add? && !e.ProducerLoad? ==> r == Err(NoPropback)
  {
    match e
    case Add(_, _, _, _) => Ok([source, source])
    case ProducerLoad(_, _, _, _) => Ok([])
    case _ => Err(NoPropback)
  }

  /**
   * Element shapes go back one per operand: an Add's both operands receive the shape it
   * was given, a read has no operand and receives none.
   */
  lemma PropbackPerOperand(e: TslExpr, source: seq<int>)
    requires PropbackElemshape(e, source).Ok?
    ensures var r := PropbackElemshape(e, source).value;
      |r| == (if e.Add? then 2 else 0) && forall k :: 0 <= k < |r| ==> r[k] == source
  {
  }
}
