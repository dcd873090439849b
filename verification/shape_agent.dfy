/**
 * The top-down shape agent of TSL shape inference (src/tsl/te/schedule/shape.cc,
 * `TslExprShapeAgent` and `InferShape`).
 *
 * After the dimension collector has named every node's dimensions, the agent gives the
 * root the finest tile extent of each of its dimensions and pushes extents down: an Add
 * hands its own extents to both operands; a matrix product gives each operand dimension
 * the product's extent for the same compound index, or else the finest factor of that
 * index variable's decomposition stack. The agent stops at a reduction and has no rule
 * for convolutions or placeholders.
 *
 * Extents are concrete integers. `Infer`, `InitShape` and `OperandShape` specify the
 * walk; the `ShapeAgent` class performs it in place and is proved to compute them.
 */
module ShapeInfer {
  import opened Wrappers
  import opened Ir
  import opened CIndexAlgebra
  import opened DecompContext
  import opened DimCollect

  /** Node id to one extent per dimension. */
  type ShapeMap = map<nat, seq<int>>

  /** The index list of `x`; a node without one reads as the empty list. */
  function DimOf(dm: map<nat, CIndices>, x: TslExpr): CIndices
  {
    if x.nid in dm then dm[x.nid] else []
  }

  /** `out` after reading the entry of `x`: a missing entry is created empty. */
  function Touch(out: ShapeMap, x: TslExpr): (r: ShapeMap)
    ensures x.nid in r && r.Keys == out.Keys + {x.nid}
    ensures x.nid in out ==> r == out
  {
    if x.nid in out then out else out[x.nid := []]
  }

  /** The extent of the finest decomposition of index variable `t`. */
  function FinestOf(ctx: DecomposeCtx, t: Term): Result<int, ShapeError>
  {
    match Lookup(ctx, t)
    case Err(d) => Err(NoStack(d))
    case Ok(s) => Ok(s.Finest())
  }

  /**
   * The extent of one operand index `c` of a product whose own indices are `self` with
   * extents `selfShape`.
   */
  function OperandExtent(c: CIndex, self: CIndices, selfShape: seq<int>, ctx: DecomposeCtx)
    : Result<int, ShapeError>
  {
    if |c| != 1 then Err(NotPure)
    else
      var loc := IndexOf(c, self);
      if loc < |self| then
        if loc < |selfShape| then Ok(selfShape[loc]) else Err(OutOfRange)
      else FinestOf(ctx, c[0])
  }

  /** The extents of an operand with index list `dims`, first failure first. */
  function OperandShape(dims: CIndices, self: CIndices, selfShape: seq<int>, ctx: DecomposeCtx)
    : Result<seq<int>, ShapeError>
  {
    if |dims| == 0 then Ok([])
    else
      var x :- OperandExtent(dims[0], self, selfShape, ctx);
      var rest :- OperandShape(dims[1..], self, selfShape, ctx);
      Ok([x] + rest)
  }

  /**
   * An operand's extents, dimension by dimension: a pure index found among the
   * product's indices takes the product's extent at the first such position, a pure
   * index not found takes the finest factor of its variable's stack, and any index with
   * more than one term is fatal.
   */
  lemma {:induction false} OperandShapeSpec(dims: CIndices, self: CIndices, selfShape: seq<int>,
                                            ctx: DecomposeCtx)
    ensures OperandShape(dims, self, selfShape, ctx).Ok? <==>
      forall i :: 0 <= i < |dims| ==> OperandExtent(dims[i], self, selfShape, ctx).Ok?
    ensures (exists i :: 0 <= i < |dims| && |dims[i]| != 1) ==> OperandShape(dims, self, selfShape, ctx).Err?
    ensures OperandShape(dims, self, selfShape, ctx).Ok? ==>
      var sh := OperandShape(dims, self, selfShape, ctx).value;
      |sh| == |dims| && forall i :: 0 <= i < |dims| ==>
        |dims[i]| == 1
        && (dims[i] in self ==> IndexOf(dims[i], self) < |selfShape|
                                && sh[i] == selfShape[IndexOf(dims[i], self)])
        && (dims[i] !in self ==> Lookup(ctx, dims[i][0]).Ok? && sh[i] == Lookup(ctx, dims[i][0]).value.Finest())
    decreases |dims|
  {
    if |dims| > 0 {
      OperandShapeSpec(dims[1..], self, selfShape, ctx);
      assert forall i :: 0 < i < |dims| ==> dims[i] == dims[1..][i - 1];
      if OperandExtent(dims[0], self, selfShape, ctx).Ok? && |dims[0]| == 1 {
        if dims[0] in self {
          IndexOfPresent(dims[0], self);
        } else {
          IndexOfAbsent(dims[0], self);
        }
      }
      forall i | 0 <= i < |dims|
        ensures |dims[i]| == 1 && OperandExtent(dims[i], self, selfShape, ctx).Ok? && dims[i] in self
                ==> IndexOf(dims[i], self) < |self|
      {
        if |dims[i]| == 1 && OperandExtent(dims[i], self, selfShape, ctx).Ok? && dims[i] in self {
          IndexOfPresent(dims[i], self);
        }
      }
      forall i | 0 <= i < |dims| && dims[i] !in self
        ensures IndexOf(dims[i], self) == |self|
      {
        IndexOfAbsent(dims[i], self);
      }
    }
  }

  /** `IndexOf` finds an index that occurs. */
  lemma {:induction false} IndexOfPresent(c: CIndex, targets: CIndices)
    requires c in targets
    ensures IndexOf(c, targets) < |targets| && targets[IndexOf(c, targets)] == c
    decreases |targets|
  {
    if targets[0] != c {
      assert c in targets[1..] by {
        var k :| 0 <= k < |targets| && targets[k] == c;
        assert targets[1..][k - 1] == c;
      }
      IndexOfPresent(c, targets[1..]);
    }
  }

  /** The extents the root starts from, one per root index (`s` is the depth of stack 0). */
  function InitExtents(dims: CIndices, ctx: DecomposeCtx, s: nat): Result<seq<int>, ShapeError>
  {
    if |dims| == 0 then Ok([])
    else if |dims[0]| != 1 then Err(NotPure)
    else
      match Lookup(ctx, dims[0][0])
      case Err(d) => Err(NoStack(d))
      case Ok(st) =>
        if st.Size() != s then Err(DepthMismatch)
        else
          var rest :- InitExtents(dims[1..], ctx, s);
          Ok([st.entries[s - 1].factor] + rest)
  }

  /** The root's starting extents: fatal on an empty context. */
  function InitShape(rootDims: CIndices, ctx: DecomposeCtx): Result<seq<int>, ShapeError>
  {
    if |ctx| == 0 then Err(OutOfRange)
    else InitExtents(rootDims, ctx, ctx[0].Size())
  }

  /**
   * The root's starting extents: every root index is pure, its variable's stack is as
   * deep as the first stack of the context, and the extent is that stack's top factor.
   */
  lemma {:induction false} InitExtentsSpec(dims: CIndices, ctx: DecomposeCtx, s: nat)
    ensures InitExtents(dims, ctx, s).Ok? <==>
      forall i :: 0 <= i < |dims| ==> |dims[i]| == 1 && Lookup(ctx, dims[i][0]).Ok?
                                      && Lookup(ctx, dims[i][0]).value.Size() == s
    ensures InitExtents(dims, ctx, s).Ok? ==>
      var sh := InitExtents(dims, ctx, s).value;
      |sh| == |dims| && forall i :: 0 <= i < |dims| ==> sh[i] == Lookup(ctx, dims[i][0]).value.Finest()
    decreases |dims|
  {
    if |dims| > 0 {
      var tail := dims[1..];
      InitExtentsSpec(tail, ctx, s);
      assert forall i :: 0 < i < |dims| ==> dims[i] == tail[i - 1];
      if |dims[0]| == 1 && Lookup(ctx, dims[0][0]).Ok? && Lookup(ctx, dims[0][0]).value.Size() == s {
        var st := Lookup(ctx, dims[0][0]).value;
        assert InitExtents(dims, ctx, s).Ok? == InitExtents(tail, ctx, s).Ok?;
        if InitExtents(tail, ctx, s).Ok? {
          assert InitExtents(dims, ctx, s).value == [st.Finest()] + InitExtents(tail, ctx, s).value;
        }
      } else {
        assert InitExtents(dims, ctx, s).Err?;
      }
    }
  }

  /** The agent's walk, as a function of the extent map built so far. */
  function Infer(e: TslExpr, dm: map<nat, CIndices>, ctx: DecomposeCtx, out: ShapeMap)
    : Result<ShapeMap, ShapeError>
    decreases e
  {
    match e
    case ProducerLoad(_, _, _, _) => Ok(Touch(out, e))
    case Add(nid, _, a, b) =>
      var o1 := Touch(out, e);
      var s := o1[nid];
      var o2 := o1[a.nid := s][b.nid := s];
      var o3 :- Infer(a, dm, ctx, o2);
      Infer(b, dm, ctx, o3)
    case Gemm(nid, _, a, b, _) =>
      var o1 := Touch(out, e);
      var self := DimOf(dm, e);
      var sa :- OperandShape(DimOf(dm, a), self, o1[nid], ctx);
      var o2 := o1[a.nid := sa];
      var sb :- OperandShape(DimOf(dm, b), self, o2[nid], ctx);
      var o3 := o2[b.nid := sb];
      var o4 :- Infer(a, dm, ctx, o3);
      Infer(b, dm, ctx, o4)
    case Reduce(_, _, _, _, _, _, _, _) => Ok(Touch(out, e))
    case _ => Ok(out)
  }

  /** The root expression of a TSL compute operation, with the agent's entry checks. */
  function AgentBody(op: Operation): Result<TslExpr, ShapeError>
  {
    if !op.kind.ComputeOp? then Err(NotComputeOp)
    else if TslOpAttr !in op.attrs then Err(NotTslOp)
    else if |op.kind.body| != 1 then Err(BodyCount)
    else
      var body := op.kind.body[0];
      if body.Add? || body.ProducerLoad? || body.Reduce? then Ok(body) else Err(UnsupportedBody)
  }

  /** Shape inference of a stage with operation `op` and decomposition context `ctx`. */
  function InferShapeSpec(op: Operation, ctx: DecomposeCtx): Result<ShapeMap, ShapeError>
  {
    var body :- AgentBody(op);
    var dm :- DimsOf(body);
    var init :- InitShape(DimOf(dm, body), ctx);
    Infer(body, dm, ctx, map[body.nid := init])
  }

  /** The ids of the nodes the agent reaches from `e`. */
  function Reached(e: TslExpr): set<nat>
    decreases e
  {
    match e
    case Add(nid, _, a, b) => {nid} + Reached(a) + Reached(b)
    case Gemm(nid, _, a, b, _) => {nid} + Reached(a) + Reached(b)
    case _ => {e.nid}
  }

  /** The agent reaches no node the collector does not visit. */
  lemma {:induction false} ReachedVisited(e: TslExpr)
    ensures e.nid in Reached(e)
    ensures Reached(e) <= Visited(e, false)
    decreases e
  {
    match e
    case Add(_, _, a, b) => ReachedVisited(a); ReachedVisited(b);
    case Gemm(_, _, a, b, _) => ReachedVisited(a); ReachedVisited(b);
    case _ =>
  }

  /** The agent's rules, read off a finished extent map `m` for the nodes reached from `e`. */
  predicate AgentRules(e: TslExpr, dm: map<nat, CIndices>, ctx: DecomposeCtx, m: ShapeMap)
    decreases e
  {
    match e
    case Add(nid, _, a, b) =>
      nid in m && a.nid in m && b.nid in m && m[a.nid] == m[nid] && m[b.nid] == m[nid]
      && AgentRules(a, dm, ctx, m) && AgentRules(b, dm, ctx, m)
    case Gemm(nid, _, a, b, _) =>
      nid in m && a.nid in m && b.nid in m
      && OperandShape(DimOf(dm, a), DimOf(dm, e), m[nid], ctx) == Ok(m[a.nid])
      && OperandShape(DimOf(dm, b), DimOf(dm, e), m[nid], ctx) == Ok(m[b.nid])
      && AgentRules(a, dm, ctx, m) && AgentRules(b, dm, ctx, m)
    case ProducerLoad(nid, _, _, _) => nid in m
    case Reduce(nid, _, _, _, _, _, _, _) => nid in m
    case _ => true
  }

  /** `m2` keeps every entry of `m1` outside the ids `s`. */
  predicate ShapesKeptOutside(m1: ShapeMap, m2: ShapeMap, s: set<nat>)
  {
    forall k :: k in m1 && k !in s ==> k in m2 && m2[k] == m1[k]
  }

  /** `m2` keeps every entry of `m1` on the ids `s`. */
  predicate ShapesKeptOn(m1: ShapeMap, m2: ShapeMap, s: set<nat>)
  {
    forall k :: k in s && k in m1 ==> k in m2 && m2[k] == m1[k]
  }

  /** Keeping entries outside a set is transitive, and survives growing the set. */
  lemma KeptOutsideTrans(m1: ShapeMap, m2: ShapeMap, m3: ShapeMap, s1: set<nat>, s2: set<nat>, s: set<nat>)
    requires ShapesKeptOutside(m1, m2, s1) && ShapesKeptOutside(m2, m3, s2) && s1 <= s && s2 <= s
    ensures ShapesKeptOutside(m1, m3, s)
  {
  }

  /** A successful walk from `e` changes only entries of nodes it reaches. */
  lemma {:induction false} InferFrame(e: TslExpr, dm: map<nat, CIndices>, ctx: DecomposeCtx, out: ShapeMap)
    requires Infer(e, dm, ctx, out).Ok?
    ensures ShapesKeptOutside(out, Infer(e, dm, ctx, out).value, Reached(e))
    decreases e, 1
  {
    match e
    case Add(_, _, _, _) => InferFrameAdd(e, dm, ctx, out);
    case Gemm(_, _, _, _, _) => InferFrameGemm(e, dm, ctx, out);
    case _ =>
  }

  /** `InferFrame` for an Add. */
  lemma {:induction false} InferFrameAdd(e: TslExpr, dm: map<nat, CIndices>, ctx: DecomposeCtx, out: ShapeMap)
    requires e.Add? && Infer(e, dm, ctx, out).Ok?
    ensures ShapesKeptOutside(out, Infer(e, dm, ctx, out).value, Reached(e))
    decreases e, 0
  {
    var nid: nat, a, b := e.nid, e.a, e.b;
    var o1 := Touch(out, e);
    var o2: ShapeMap := o1[a.nid := o1[nid]][b.nid := o1[nid]];
    var o3 := Infer(a, dm, ctx, o2).value;
    assert Infer(e, dm, ctx, out) == Infer(b, dm, ctx, o3);
    ReachedVisited(a);
    ReachedVisited(b);
    assert ShapesKeptOutside(out, o2, Reached(e));
    InferFrame(a, dm, ctx, o2);
    KeptOutsideTrans(out, o2, o3, Reached(e), Reached(a), Reached(e));
    InferFrame(b, dm, ctx, o3);
    KeptOutsideTrans(out, o3, Infer(b, dm, ctx, o3).value, Reached(e), Reached(b), Reached(e));
  }

  /** `InferFrame` for a product. */
  lemma {:induction false} InferFrameGemm(e: TslExpr, dm: map<nat, CIndices>, ctx: DecomposeCtx, out: ShapeMap)
    requires e.Gemm? && Infer(e, dm, ctx, out).Ok?
    ensures ShapesKeptOutside(out, Infer(e, dm, ctx, out).value, Reached(e))
    decreases e, 0
  {
    var nid: nat, a, b := e.nid, e.a, e.b;
    var o1 := Touch(out, e);
    var self := DimOf(dm, e);
    var sa := OperandShape(DimOf(dm, a), self, o1[nid], ctx).value;
    var o2: ShapeMap := o1[a.nid := sa];
    var sb := OperandShape(DimOf(dm, b), self, o2[nid], ctx).value;
    var o3: ShapeMap := o2[b.nid := sb];
    var o4 := Infer(a, dm, ctx, o3).value;
    assert Infer(e, dm, ctx, out) == Infer(b, dm, ctx, o4);
    ReachedVisited(a);
    ReachedVisited(b);
    assert ShapesKeptOutside(out, o3, Reached(e));
    InferFrame(a, dm, ctx, o3);
    KeptOutsideTrans(out, o3, o4, Reached(e), Reached(a), Reached(e));
    InferFrame(b, dm, ctx, o4);
    KeptOutsideTrans(out, o4, Infer(b, dm, ctx, o4).value, Reached(e), Reached(b), Reached(e));
  }

  /** The rules read off an extent map depend only on the entries of reached nodes. */
  lemma {:induction false} AgentRulesFrame(e: TslExpr, dm: map<nat, CIndices>, ctx: DecomposeCtx,
                                           m1: ShapeMap, m2: ShapeMap)
    requires AgentRules(e, dm, ctx, m1)
    requires ShapesKeptOn(m1, m2, Reached(e))
    ensures AgentRules(e, dm, ctx, m2)
    decreases e
  {
    match e
    case Add(_, _, a, b) =>
      AgentRulesFrame(a, dm, ctx, m1, m2);
      AgentRulesFrame(b, dm, ctx, m1, m2);
    case Gemm(_, _, a, b, _) =>
      AgentRulesFrame(a, dm, ctx, m1, m2);
      AgentRulesFrame(b, dm, ctx, m1, m2);
    case _ =>
  }

  /**
   * What a successful walk establishes on a well-formed expression whose root already
   * has extents: the root keeps them, every Add's operands carry exactly the Add's
   * extents, every product operand carries `OperandShape` of the product's extents, and
   * every tensor read reached has extents.
   */
  lemma {:induction false} InferRules(e: TslExpr, dm: map<nat, CIndices>, ctx: DecomposeCtx, out: ShapeMap)
    requires WellFormed(e, false)
    requires e.nid in out
    requires Infer(e, dm, ctx, out).Ok?
    ensures AgentRules(e, dm, ctx, Infer(e, dm, ctx, out).value)
    ensures e.nid in Infer(e, dm, ctx, out).value
    ensures Infer(e, dm, ctx, out).value[e.nid] == out[e.nid]
    decreases e
  {
    match e
    case Add(nid, _, a, b) => InferRulesAdd(e, dm, ctx, out);
    case Gemm(nid, _, a, b, _) => InferRulesGemm(e, dm, ctx, out);
    case _ =>
  }

  /** `InferRules` for an Add. */
  lemma {:induction false} InferRulesAdd(e: TslExpr, dm: map<nat, CIndices>, ctx: DecomposeCtx, out: ShapeMap)
    requires e.Add?
    requires WellFormed(e, false)
    requires e.nid in out
    requires Infer(e, dm, ctx, out).Ok?
    ensures AgentRules(e, dm, ctx, Infer(e, dm, ctx, out).value)
    ensures e.nid in Infer(e, dm, ctx, out).value
    ensures Infer(e, dm, ctx, out).value[e.nid] == out[e.nid]
    decreases e, 0
  {
    var (nid, a, b) := (e.nid, e.a, e.b);
    var s := out[nid];
    var o2: ShapeMap := out[a.nid := s][b.nid := s];
    var o3 := Infer(a, dm, ctx, o2).value;
    var o4 := Infer(b, dm, ctx, o3).value;
    ReachedVisited(a);
    ReachedVisited(b);
    InferFrame(a, dm, ctx, o2);
    InferFrame(b, dm, ctx, o3);
    InferRules(a, dm, ctx, o2);
    InferRules(b, dm, ctx, o3);
    AgentRulesFrame(a, dm, ctx, o3, o4);
  }

  /** `InferRules` for a matrix product. */
  lemma {:induction false} InferRulesGemm(e: TslExpr, dm: map<nat, CIndices>, ctx: DecomposeCtx, out: ShapeMap)
    requires e.Gemm?
    requires WellFormed(e, false)
    requires e.nid in out
    requires Infer(e, dm, ctx, out).Ok?
    ensures AgentRules(e, dm, ctx, Infer(e, dm, ctx, out).value)
    ensures e.nid in Infer(e, dm, ctx, out).value
    ensures Infer(e, dm, ctx, out).value[e.nid] == out[e.nid]
    decreases e, 0
  {
    var (nid, a, b) := (e.nid, e.a, e.b);
    var self := DimOf(dm, e);
    var sa := OperandShape(DimOf(dm, a), self, out[nid], ctx).value;
    var o2: ShapeMap := out[a.nid := sa];
    var sb := OperandShape(DimOf(dm, b), self, o2[nid], ctx).value;
    var o3: ShapeMap := o2[b.nid := sb];
    var o4 := Infer(a, dm, ctx, o3).value;
    var o5 := Infer(b, dm, ctx, o4).value;
    ReachedVisited(a);
    ReachedVisited(b);
    InferFrame(a, dm, ctx, o3);
    InferFrame(b, dm, ctx, o4);
    InferRules(a, dm, ctx, o3);
    InferRules(b, dm, ctx, o4);
    AgentRulesFrame(a, dm, ctx, o4, o5);
  }

  /** The stage-level result: the root keeps its starting extents and every rule holds. */
  lemma InferShapeRules(op: Operation, ctx: DecomposeCtx)
    requires InferShapeSpec(op, ctx).Ok?
    requires WellFormed(AgentBody(op).value, false)
    ensures var body := AgentBody(op).value;
      var dm := DimsOf(body).value;
      var out := InferShapeSpec(op, ctx).value;
      Consistent(body, dm, false, [])
      && InitShape(DimOf(dm, body), ctx).Ok?
      && body.nid in out && out[body.nid] == InitShape(DimOf(dm, body), ctx).value
      && AgentRules(body, dm, ctx, out)
  {
    var body := AgentBody(op).value;
    var dm := DimsOf(body).value;
    var init := InitShape(DimOf(dm, body), ctx).value;
    DimsOfConsistent(body);
    InferRules(body, dm, ctx, map[body.nid := init]);
  }

  /** `r` followed by the result `rest`, or the failure of `rest`. */
  function Prepend(r: seq<int>, rest: Result<seq<int>, ShapeError>): Result<seq<int>, ShapeError>
  {
    if rest.Ok? then Ok(r + rest.value) else rest
  }

  /** Prepending in two steps is prepending the concatenation. */
  lemma PrependStep(r: seq<int>, x: int, rest: Result<seq<int>, ShapeError>)
    ensures Prepend(r, Prepend([x], rest)) == Prepend(r + [x], rest)
  {
    if rest.Ok? {
      assert r + ([x] + rest.value) == (r + [x]) + rest.value;
    }
  }

  /** The shape agent object: the walk's fixed inputs and the extent map it fills. */
  class ShapeAgent {
    const ctx: DecomposeCtx
    const body: TslExpr
    var dimMap: map<nat, CIndices>
    var outMap: ShapeMap

    constructor (body: TslExpr, ctx: DecomposeCtx)
      ensures this.body == body && this.ctx == ctx
      ensures dimMap == map[] && outMap == map[]
    {
      this.body := body;
      this.ctx := ctx;
      dimMap := map[];
      outMap := map[];
    }

    /** Collect the dimensions, start the root from its finest extents and walk down. */
    method Run() returns (o: Outcome<ShapeError>)
      modifies this
      ensures var spec := (var dm :- DimsOf(body);
                           var init :- InitShape(DimOf(dm, body), ctx);
                           Infer(body, dm, ctx, old(outMap)[body.nid := init]));
        (o.Pass? <==> spec.Ok?) && (o.Pass? ==> outMap == spec.value)
        && (o.Fail? ==> o.error == spec.error)
    {
      var d := CollectDim(body);
      if d.Err? {
        return Fail(d.error);
      }
      dimMap := d.value;
      var start := ExtractInit();
      if start.Err? {
        return Fail(start.error);
      }
      outMap := outMap[body.nid := start.value];
      o := Visit(body);
    }

    /** The root's starting extents, read from the decomposition context. */
    method ExtractInit() returns (r: Result<seq<int>, ShapeError>)
      ensures r == InitShape(DimOf(dimMap, body), ctx)
    {
      if |ctx| == 0 {
        return Err(OutOfRange);
      }
      var sSize := ctx[0].Size();
      var cs := DimOf(dimMap, body);
      var ret: seq<int> := [];
      var i := 0;
      assert cs[i..] == cs;
      assert Prepend(ret, InitExtents(cs, ctx, sSize)) == InitExtents(cs, ctx, sSize) by {
        if InitExtents(cs, ctx, sSize).Ok? {
          assert [] + InitExtents(cs, ctx, sSize).value == InitExtents(cs, ctx, sSize).value;
        }
      }
      while i < |cs|
        invariant 0 <= i <= |cs|
        invariant InitExtents(cs, ctx, sSize) == Prepend(ret, InitExtents(cs[i..], ctx, sSize))
      {
        assert cs[i..][0] == cs[i] && cs[i..][1..] == cs[i + 1..];
        if |cs[i]| != 1 {
          return Err(NotPure);
        }
        var stack := Find(ctx, cs[i][0]);
        if stack.Err? {
          return Err(NoStack(stack.error));
        }
        if stack.value.Size() != sSize {
          return Err(DepthMismatch);
        }
        PrependStep(ret, stack.value.entries[sSize - 1].factor, InitExtents(cs[i + 1..], ctx, sSize));
        ret := ret + [stack.value.entries[sSize - 1].factor];
        i := i + 1;
      }
      assert cs[i..] == [];
      assert ret + [] == ret;
      return Ok(ret);
    }

    /** The extents of one product operand with index list `dims`. */
    method OperandExtents(dims: CIndices, self: CIndices, selfShape: seq<int>)
      returns (r: Result<seq<int>, ShapeError>)
      ensures r == OperandShape(dims, self, selfShape, ctx)
    {
      var ret: seq<int> := [];
      var i := 0;
      assert dims[i..] == dims;
      assert Prepend(ret, OperandShape(dims, self, selfShape, ctx)) == OperandShape(dims, self, selfShape, ctx) by {
        if OperandShape(dims, self, selfShape, ctx).Ok? {
          assert [] + OperandShape(dims, self, selfShape, ctx).value == OperandShape(dims, self, selfShape, ctx).value;
        }
      }
      while i < |dims|
        invariant 0 <= i <= |dims|
        invariant OperandShape(dims, self, selfShape, ctx) == Prepend(ret, OperandShape(dims[i..], self, selfShape, ctx))
      {
        assert dims[i..][0] == dims[i] && dims[i..][1..] == dims[i + 1..];
        var c := dims[i];
        if |c| == 1 {
          var loc := FindCIndex(c, self);
          if loc < |self| {
            if loc >= |selfShape| {
              return Err(OutOfRange);
            }
            PrependStep(ret, selfShape[loc], OperandShape(dims[i + 1..], self, selfShape, ctx));
            ret := ret + [selfShape[loc]];
          } else {
            var stack := Find(ctx, c[0]);
            if stack.Err? {
              return Err(NoStack(stack.error));
            }
            PrependStep(ret, stack.value.Finest(), OperandShape(dims[i + 1..], self, selfShape, ctx));
            ret := ret + [stack.value.entries[stack.value.Size() - 1].factor];
          }
        } else {
          return Err(NotPure);
        }
        i := i + 1;
      }
      assert dims[i..] == [];
      assert ret + [] == ret;
      return Ok(ret);
    }

    /** Visit `e`, pushing extents down to its operands. */
    method Visit(e: TslExpr) returns (o: Outcome<ShapeError>)
      modifies this`outMap
      ensures var spec := Infer(e, dimMap, ctx, old(outMap));
        (o.Pass? <==> spec.Ok?) && (o.Pass? ==> outMap == spec.value)
        && (o.Fail? ==> o.error == spec.error)
      decreases e, 1
    {
      match e
      case ProducerLoad(_, _, _, _) =>
        outMap := Touch(outMap, e);
        return Pass;
      case Add(_, _, _, _) =>
        o := VisitAdd(e);
      case Gemm(_, _, _, _, _) =>
        o := VisitGemm(e);
      case Reduce(_, _, _, _, _, _, _, _) =>
        outMap := Touch(outMap, e);
        return Pass;
      case TslVar(_, _, _) =>
        return Pass;
      case Conv(_, _, _, _, _) =>
        return Pass;
      case Foreign(_, _) =>
        return Pass;
    }

    /** The Add rule: both operands take the Add's extents. */
    method VisitAdd(e: TslExpr) returns (o: Outcome<ShapeError>)
      requires e.Add?
      modifies this`outMap
      ensures var spec := Infer(e, dimMap, ctx, old(outMap));
        (o.Pass? <==> spec.Ok?) && (o.Pass? ==> outMap == spec.value)
        && (o.Fail? ==> o.error == spec.error)
      decreases e, 0
    {
      outMap := Touch(outMap, e);
      var selfOutShape := outMap[e.nid];
      outMap := outMap[e.a.nid := selfOutShape];
      outMap := outMap[e.b.nid := selfOutShape];
      o := Visit(e.a);
      if o.Fail? { return; }
      o := Visit(e.b);
    }

    /** The matrix-product rule: each operand index takes a found extent or a finest factor. */
    method VisitGemm(e: TslExpr) returns (o: Outcome<ShapeError>)
      requires e.Gemm?
      modifies this`outMap
      ensures var spec := Infer(e, dimMap, ctx, old(outMap));
        (o.Pass? <==> spec.Ok?) && (o.Pass? ==> outMap == spec.value)
        && (o.Fail? ==> o.error == spec.error)
      decreases e, 0
    {
      outMap := Touch(outMap, e);
      var selfDims := DimOf(dimMap, e);
      var shapeA := OperandExtents(DimOf(dimMap, e.a), selfDims, outMap[e.nid]);
      if shapeA.Err? {
        return Fail(shapeA.error);
      }
      outMap := outMap[e.a.nid := shapeA.value];
      var shapeB := OperandExtents(DimOf(dimMap, e.b), selfDims, outMap[e.nid]);
      if shapeB.Err? {
        return Fail(shapeB.error);
      }
      outMap := outMap[e.b.nid := shapeB.value];
      o := Visit(e.a);
      if o.Fail? { return; }
      o := Visit(e.b);
    }
  }

  /** Shape inference of a stage: check the operation, then run a fresh agent. */
  method InferShape(op: Operation, ctx: DecomposeCtx) returns (r: Result<ShapeMap, ShapeError>)
    ensures r == InferShapeSpec(op, ctx)
  {
    var body := AgentBody(op);
    if body.Err? {
      return Err(body.error);
    }
    var agent := new ShapeAgent(body.value, ctx);
    var o := agent.Run();
    if o.Fail? {
      return Err(o.error);
    }
    return Ok(agent.outMap);
  }
}
