/**
 * Root-path variable shape extraction (src/tsl/te/schedule/ivar_visitor.cc).
 *
 * A post-order walk over the body of a compute operation visits every tensor read. For
 * each pure compound index of a read whose variable belongs to a requested iteration
 * variable, it records that read's producer extent in the same dimension under the
 * iteration variable, or checks it against the extent already recorded.
 *
 * `Walk` is the walk as a function of the map built so far; `ExtractRootPathIvarShape`
 * fills a map object in place and is proved to compute it. The lemmas show that a
 * successful walk only adds entries, only for requested variables, that every read
 * agrees with the result, and that the walk is idempotent.
 */
module IvarShape {
  import opened Wrappers
  import opened Ir

  /** Fatal conditions of the extraction. */
  datatype IvarError =
    | OutputIndex      // the read's output index is past the producer's outputs
    | NDimMismatch     // a read's compound-index count differs from the tensor's rank
    | NotAVar          // the single term of a pure compound index is not a variable
    | OutOfRange       // a dimension past the end of the producer's output shape
    | ExtentMismatch   // a variable read at two different extents

  /** Requested iteration variable to extent. */
  type IvarShapeMap = map<IterVar, int>

  /** The position of the first iteration variable whose loop variable is `v`, or the length. */
  function VarPos(ivars: seq<IterVar>, v: Var): (r: nat)
    ensures r <= |ivars|
    ensures r < |ivars| ==> ivars[r].v == v
    ensures forall j :: 0 <= j < r ==> ivars[j].v != v
  {
    if |ivars| == 0 then 0
    else if ivars[0].v == v then 0
    else 1 + VarPos(ivars[1..], v)
  }

  /** Linear search for the iteration variable of `v`. */
  method FindVar(ivars: seq<IterVar>, v: Var) returns (pos: nat)
    ensures pos == VarPos(ivars, v)
    ensures pos == |ivars| <==> forall j :: 0 <= j < |ivars| ==> ivars[j].v != v
  {
    var i := 0;
    while i < |ivars|
      invariant 0 <= i <= |ivars|
      invariant forall j :: 0 <= j < i ==> ivars[j].v != v
    {
      if ivars[i].v == v {
        return i;
      }
      i := i + 1;
    }
    return |ivars|;
  }

  /** The shape the producer declares for the read tensor's output. */
  function OutputShape(t: Tensor): Result<seq<int>, IvarError>
  {
    if t.valueIndex < |t.op.outputs| then Ok(t.op.outputs[t.valueIndex].shape) else Err(OutputIndex)
  }

  /** `r` keeps every entry of `m`. */
  predicate Extends(m: IvarShapeMap, r: IvarShapeMap)
  {
    forall k :: k in m ==> k in r && r[k] == m[k]
  }

  /** Every entry of `r` not in `m` is a requested iteration variable. */
  predicate OnlyRequested(m: IvarShapeMap, r: IvarShapeMap, req: seq<IterVar>)
  {
    forall k :: k in r && k !in m ==> k in req
  }

  /**
   * The compound index `c` at dimension `i` of a read with extents `shape`: a pure
   * index of a requested variable records the extent on its first occurrence and must
   * match it on later ones; any other index leaves the map as it is.
   */
  function RecordOne(c: CIndex, i: nat, shape: seq<int>, req: seq<IterVar>, m: IvarShapeMap)
    : (r: Result<IvarShapeMap, IvarError>)
    ensures |c| != 1 ==> r == Ok(m)
    ensures |c| == 1 && c[0].OpaqueTerm? ==> r == Err(NotAVar)
    ensures |c| == 1 && c[0].VarTerm? && VarPos(req, c[0].v) == |req| ==> r == Ok(m)
    ensures |c| == 1 && c[0].VarTerm? && VarPos(req, c[0].v) < |req| && i < |shape| ==>
      var k := req[VarPos(req, c[0].v)];
      (k in m ==> r == if m[k] == shape[i] then Ok(m) else Err(ExtentMismatch))
      && (k !in m ==> r == Ok(m[k := shape[i]]))
    ensures r.Ok? ==> Extends(m, r.value) && OnlyRequested(m, r.value, req)
  {
    if |c| != 1 then Ok(m)
    else if !c[0].VarTerm? then Err(NotAVar)
    else
      var pos := VarPos(req, c[0].v);
      if pos < |req| then
        if i >= |shape| then Err(OutOfRange)
        else if req[pos] in m then
          if m[req[pos]] == shape[i] then Ok(m) else Err(ExtentMismatch)
        else Ok(m[req[pos] := shape[i]])
      else Ok(m)
  }

  /** The dimensions `i..` of one read, in order. */
  function RecordFrom(ci: CIndices, i: nat, shape: seq<int>, req: seq<IterVar>, m: IvarShapeMap)
    : Result<IvarShapeMap, IvarError>
    requires i <= |ci|
    decreases |ci| - i
  {
    if i == |ci| then Ok(m)
    else
      var m1 :- RecordOne(ci[i], i, shape, req, m);
      RecordFrom(ci, i + 1, shape, req, m1)
  }

  /** One tensor read: its rank is checked, then every dimension recorded. */
  function RecordLoad(t: Tensor, ci: CIndices, req: seq<IterVar>, m: IvarShapeMap)
    : Result<IvarShapeMap, IvarError>
  {
    var shape :- OutputShape(t);
    if |ci| != t.NDim() then Err(NDimMismatch)
    else RecordFrom(ci, 0, shape, req, m)
  }

  /** The post-order walk: operands before their node, reduction sources in order. */
  function Walk(e: TslExpr, req: seq<IterVar>, m: IvarShapeMap): Result<IvarShapeMap, IvarError>
    decreases e
  {
    match e
    case ProducerLoad(_, _, t, ci) => RecordLoad(t, ci, req, m)
    case Add(_, _, a, b) => var m1 :- Walk(a, req, m); Walk(b, req, m1)
    case Gemm(_, _, a, b, _) => var m1 :- Walk(a, req, m); Walk(b, req, m1)
    case Conv(_, _, a, b, _) => var m1 :- Walk(a, req, m); Walk(b, req, m1)
    case Reduce(_, _, _, src, _, _, _, _) => WalkAll(src, req, m)
    case TslVar(_, _, _) => Ok(m)
    case Foreign(_, _) => Ok(m)
  }

  /** The walk over a list of expressions, in order. */
  function WalkAll(es: seq<TslExpr>, req: seq<IterVar>, m: IvarShapeMap): Result<IvarShapeMap, IvarError>
    decreases es
  {
    if |es| == 0 then Ok(m)
    else
      var m1 :- Walk(es[0], req, m);
      WalkAll(es[1..], req, m1)
  }

  /** The extraction over the body of a compute operation. */
  function Extract(op: Operation, req: seq<IterVar>, m: IvarShapeMap): Result<IvarShapeMap, IvarError>
    requires op.kind.ComputeOp?
  {
    WalkAll(op.kind.body, req, m)
  }

  /**
   * A read is covered by `m`: its output shape exists, its rank matches, every pure
   * index is a variable, and every requested variable it reads has its extent in `m`.
   */
  predicate LoadCovered(t: Tensor, ci: CIndices, req: seq<IterVar>, m: IvarShapeMap)
  {
    OutputShape(t).Ok? && |ci| == t.NDim()
    && forall i :: 0 <= i < |ci| && |ci[i]| == 1 ==>
         ci[i][0].VarTerm?
         && (VarPos(req, ci[i][0].v) < |req| ==>
               i < |OutputShape(t).value|
               && req[VarPos(req, ci[i][0].v)] in m
               && m[req[VarPos(req, ci[i][0].v)]] == OutputShape(t).value[i])
  }

  /** Every read the walk reaches in `e` is covered by `m`. */
  predicate Covered(e: TslExpr, req: seq<IterVar>, m: IvarShapeMap)
    decreases e
  {
    match e
    case ProducerLoad(_, _, t, ci) => LoadCovered(t, ci, req, m)
    case Add(_, _, a, b) => Covered(a, req, m) && Covered(b, req, m)
    case Gemm(_, _, a, b, _) => Covered(a, req, m) && Covered(b, req, m)
    case Conv(_, _, a, b, _) => Covered(a, req, m) && Covered(b, req, m)
    case Reduce(_, _, _, src, _, _, _, _) => CoveredAll(src, req, m)
    case TslVar(_, _, _) => true
    case Foreign(_, _) => true
  }

  /** Every expression of `es` is covered by `m`. */
  predicate CoveredAll(es: seq<TslExpr>, req: seq<IterVar>, m: IvarShapeMap)
    decreases es
  {
    |es| == 0 || (Covered(es[0], req, m) && CoveredAll(es[1..], req, m))
  }

  /** Dimensions `i..` of a read: a success only adds entries, and only requested ones. */
  lemma {:induction false} RecordFromGrows(ci: CIndices, i: nat, shape: seq<int>, req: seq<IterVar>,
                                           m: IvarShapeMap)
    requires i <= |ci|
    requires RecordFrom(ci, i, shape, req, m).Ok?
    ensures Extends(m, RecordFrom(ci, i, shape, req, m).value)
    ensures OnlyRequested(m, RecordFrom(ci, i, shape, req, m).value, req)
    decreases |ci| - i
  {
    if i < |ci| {
      var m1 := RecordOne(ci[i], i, shape, req, m).value;
      RecordFromGrows(ci, i + 1, shape, req, m1);
    }
  }

  /** A successful walk only adds entries, and only for requested iteration variables. */
  lemma {:induction false} WalkGrows(e: TslExpr, req: seq<IterVar>, m: IvarShapeMap)
    requires Walk(e, req, m).Ok?
    ensures Extends(m, Walk(e, req, m).value)
    ensures OnlyRequested(m, Walk(e, req, m).value, req)
    decreases e
  {
    match e
    case ProducerLoad(_, _, t, ci) =>
      RecordFromGrows(ci, 0, OutputShape(t).value, req, m);
    case Add(_, _, a, b) =>
      WalkGrows(a, req, m);
      WalkGrows(b, req, Walk(a, req, m).value);
    case Gemm(_, _, a, b, _) =>
      WalkGrows(a, req, m);
      WalkGrows(b, req, Walk(a, req, m).value);
    case Conv(_, _, a, b, _) =>
      WalkGrows(a, req, m);
      WalkGrows(b, req, Walk(a, req, m).value);
    case Reduce(_, _, _, src, _, _, _, _) =>
      WalkAllGrows(src, req, m);
    case TslVar(_, _, _) =>
    case Foreign(_, _) =>
  }

  /** `WalkGrows` for a list of expressions. */
  lemma {:induction false} WalkAllGrows(es: seq<TslExpr>, req: seq<IterVar>, m: IvarShapeMap)
    requires WalkAll(es, req, m).Ok?
    ensures Extends(m, WalkAll(es, req, m).value)
    ensures OnlyRequested(m, WalkAll(es, req, m).value, req)
    decreases es
  {
    if |es| > 0 {
      WalkGrows(es[0], req, m);
      WalkAllGrows(es[1..], req, Walk(es[0], req, m).value);
    }
  }

  /** Coverage survives adding entries. */
  lemma {:induction false} CoveredExtends(e: TslExpr, req: seq<IterVar>, m: IvarShapeMap, m2: IvarShapeMap)
    requires Covered(e, req, m) && Extends(m, m2)
    ensures Covered(e, req, m2)
    decreases e
  {
    match e
    case ProducerLoad(_, _, t, ci) =>
    case Add(_, _, a, b) =>
      CoveredExtends(a, req, m, m2);
      CoveredExtends(b, req, m, m2);
    case Gemm(_, _, a, b, _) =>
      CoveredExtends(a, req, m, m2);
      CoveredExtends(b, req, m, m2);
    case Conv(_, _, a, b, _) =>
      CoveredExtends(a, req, m, m2);
      CoveredExtends(b, req, m, m2);
    case Reduce(_, _, _, src, _, _, _, _) =>
      CoveredAllExtends(src, req, m, m2);
    case TslVar(_, _, _) =>
    case Foreign(_, _) =>
  }

  /** `CoveredExtends` for a list of expressions. */
  lemma {:induction false} CoveredAllExtends(es: seq<TslExpr>, req: seq<IterVar>, m: IvarShapeMap,
                                             m2: IvarShapeMap)
    requires CoveredAll(es, req, m) && Extends(m, m2)
    ensures CoveredAll(es, req, m2)
    decreases es
  {
    if |es| > 0 {
      CoveredExtends(es[0], req, m, m2);
      CoveredAllExtends(es[1..], req, m, m2);
    }
  }

  /**
   * After a successful pass over dimensions `i..` of a read, those dimensions agree with
   * the result.
   */
  lemma {:induction false} RecordFromCovers(ci: CIndices, i: nat, shape: seq<int>, req: seq<IterVar>,
                                            m: IvarShapeMap)
    requires i <= |ci|
    requires RecordFrom(ci, i, shape, req, m).Ok?
    ensures var r := RecordFrom(ci, i, shape, req, m).value;
      forall j :: i <= j < |ci| && |ci[j]| == 1 ==>
        ci[j][0].VarTerm?
        && (VarPos(req, ci[j][0].v) < |req| ==>
              j < |shape| && req[VarPos(req, ci[j][0].v)] in r
              && r[req[VarPos(req, ci[j][0].v)]] == shape[j])
    decreases |ci| - i
  {
    if i < |ci| {
      var m1 := RecordOne(ci[i], i, shape, req, m).value;
      RecordFromCovers(ci, i + 1, shape, req, m1);
      RecordFromGrows(ci, i + 1, shape, req, m1);
    }
  }

  /** After a successful walk every read it reached agrees with the result. */
  lemma {:induction false} WalkCovers(e: TslExpr, req: seq<IterVar>, m: IvarShapeMap)
    requires Walk(e, req, m).Ok?
    ensures Covered(e, req, Walk(e, req, m).value)
    decreases e, 1
  {
    match e
    case ProducerLoad(_, _, t, ci) =>
      RecordFromCovers(ci, 0, OutputShape(t).value, req, m);
    case Add(_, _, a, b) =>
      WalkPairCovers(e, req, m);
    case Gemm(_, _, a, b, _) =>
      WalkPairCovers(e, req, m);
    case Conv(_, _, a, b, _) =>
      WalkPairCovers(e, req, m);
    case Reduce(_, _, _, src, _, _, _, _) =>
      WalkAllCovers(src, req, m);
    case TslVar(_, _, _) =>
    case Foreign(_, _) =>
  }

  /** Two operands walked in turn are both covered by the final map. */
  lemma {:induction false} WalkPairCovers(e: TslExpr, req: seq<IterVar>, m: IvarShapeMap)
    requires e.Add? || e.Gemm? || e.Conv?
    requires Walk(e.a, req, m).Ok? && Walk(e.b, req, Walk(e.a, req, m).value).Ok?
    ensures var r := Walk(e.b, req, Walk(e.a, req, m).value).value;
      Covered(e.a, req, r) && Covered(e.b, req, r)
    decreases e, 0
  {
    var a, b := e.a, e.b;
    var m1 := Walk(a, req, m).value;
    WalkCovers(a, req, m);
    WalkGrows(b, req, m1);
    CoveredExtends(a, req, m1, Walk(b, req, m1).value);
    WalkCovers(b, req, m1);
  }

  /** `WalkCovers` for a list of expressions. */
  lemma {:induction false} WalkAllCovers(es: seq<TslExpr>, req: seq<IterVar>, m: IvarShapeMap)
    requires WalkAll(es, req, m).Ok?
    ensures CoveredAll(es, req, WalkAll(es, req, m).value)
    decreases es
  {
    if |es| > 0 {
      var m1 := Walk(es[0], req, m).value;
      WalkCovers(es[0], req, m);
      WalkAllGrows(es[1..], req, m1);
      CoveredExtends(es[0], req, m1, WalkAll(es[1..], req, m1).value);
      WalkAllCovers(es[1..], req, m1);
    }
  }

  /** Dimensions `i..` of a read that agree with `m` leave it unchanged. */
  lemma {:induction false} RecordFromStable(ci: CIndices, i: nat, shape: seq<int>, req: seq<IterVar>,
                                            m: IvarShapeMap)
    requires i <= |ci|
    requires forall j :: i <= j < |ci| && |ci[j]| == 1 ==>
        ci[j][0].VarTerm?
        && (VarPos(req, ci[j][0].v) < |req| ==>
              j < |shape| && req[VarPos(req, ci[j][0].v)] in m
              && m[req[VarPos(req, ci[j][0].v)]] == shape[j])
    ensures RecordFrom(ci, i, shape, req, m) == Ok(m)
    decreases |ci| - i
  {
    if i < |ci| {
      assert RecordOne(ci[i], i, shape, req, m) == Ok(m);
      RecordFromStable(ci, i + 1, shape, req, m);
    }
  }

  /** A map that covers every read of `e` is a fixed point of the walk. */
  lemma {:induction false} WalkStable(e: TslExpr, req: seq<IterVar>, m: IvarShapeMap)
    requires Covered(e, req, m)
    ensures Walk(e, req, m) == Ok(m)
    decreases e
  {
    match e
    case ProducerLoad(_, _, t, ci) =>
      RecordFromStable(ci, 0, OutputShape(t).value, req, m);
    case Add(_, _, a, b) =>
      WalkStable(a, req, m);
      WalkStable(b, req, m);
    case Gemm(_, _, a, b, _) =>
      WalkStable(a, req, m);
      WalkStable(b, req, m);
    case Conv(_, _, a, b, _) =>
      WalkStable(a, req, m);
      WalkStable(b, req, m);
    case Reduce(_, _, _, src, _, _, _, _) =>
      WalkAllStable(src, req, m);
    case TslVar(_, _, _) =>
    case Foreign(_, _) =>
  }

  /** `WalkStable` for a list of expressions. */
  lemma {:induction false} WalkAllStable(es: seq<TslExpr>, req: seq<IterVar>, m: IvarShapeMap)
    requires CoveredAll(es, req, m)
    ensures WalkAll(es, req, m) == Ok(m)
    decreases es
  {
    if |es| > 0 {
      WalkStable(es[0], req, m);
      WalkAllStable(es[1..], req, m);
    }
  }

  /**
   * The extraction of a compute operation: a success keeps every earlier entry, adds
   * only requested variables, agrees with every read of the body, and running it again
   * on its own result changes nothing.
   */
  lemma ExtractSpec(op: Operation, req: seq<IterVar>, m: IvarShapeMap)
    requires op.kind.ComputeOp?
    requires Extract(op, req, m).Ok?
    ensures var r := Extract(op, req, m).value;
      Extends(m, r) && OnlyRequested(m, r, req) && CoveredAll(op.kind.body, req, r)
      && Extract(op, req, r) == Ok(r)
  {
    var r := Extract(op, req, m).value;
    WalkAllGrows(op.kind.body, req, m);
    WalkAllCovers(op.kind.body, req, m);
    WalkAllStable(op.kind.body, req, r);
  }

  /** The caller's map, filled in place. */
  class IvarShapeOut {
    var m: IvarShapeMap

    constructor (m: IvarShapeMap)
      ensures this.m == m
    {
      this.m := m;
    }
  }

  /** Record the dimensions of one read into `out`. */
  method VisitLoad(t: Tensor, ci: CIndices, req: seq<IterVar>, out: IvarShapeOut)
    returns (o: Outcome<IvarError>)
    modifies out
    ensures var spec := RecordLoad(t, ci, req, old(out.m));
      (o.Pass? <==> spec.Ok?) && (o.Pass? ==> out.m == spec.value)
      && (o.Fail? ==> o.error == spec.error)
  {
    if t.valueIndex >= |t.op.outputs| {
      return Fail(OutputIndex);
    }
    var shape := t.op.outputs[t.valueIndex].shape;
    if |ci| != t.NDim() {
      return Fail(NDimMismatch);
    }
    ghost var m0 := out.m;
    var i := 0;
    while i < |ci|
      invariant 0 <= i <= |ci|
      invariant RecordFrom(ci, 0, shape, req, m0) == RecordFrom(ci, i, shape, req, out.m)
    {
      var c := ci[i];
      if |c| == 1 {
        if !c[0].VarTerm? {
          return Fail(NotAVar);
        }
        var pos := FindVar(req, c[0].v);
        if pos < |req| {
          if i >= |shape| {
            return Fail(OutOfRange);
          }
          if req[pos] in out.m {
            if out.m[req[pos]] != shape[i] {
              return Fail(ExtentMismatch);
            }
          } else {
            out.m := out.m[req[pos] := shape[i]];
          }
        }
      }
      i := i + 1;
    }
    return Pass;
  }

  /** The post-order walk over `e`, filling `out`. */
  method PostOrderVisit(e: TslExpr, req: seq<IterVar>, out: IvarShapeOut) returns (o: Outcome<IvarError>)
    modifies out
    ensures var spec := Walk(e, req, old(out.m));
      (o.Pass? <==> spec.Ok?) && (o.Pass? ==> out.m == spec.value)
      && (o.Fail? ==> o.error == spec.error)
    decreases e, 1
  {
    match e
    case ProducerLoad(_, _, t, ci) =>
      o := VisitLoad(t, ci, req, out);
    case Add(_, _, a, b) =>
      o := VisitPair(e, req, out);
    case Gemm(_, _, a, b, _) =>
      o := VisitPair(e, req, out);
    case Conv(_, _, a, b, _) =>
      o := VisitPair(e, req, out);
    case Reduce(_, _, _, src, _, _, _, _) =>
      o := VisitAll(src, req, out);
    case TslVar(_, _, _) =>
      return Pass;
    case Foreign(_, _) =>
      return Pass;
  }

  /** Two operands, `a` first. */
  method VisitPair(e: TslExpr, req: seq<IterVar>, out: IvarShapeOut)
    returns (o: Outcome<IvarError>)
    requires e.Add? || e.Gemm? || e.Conv?
    modifies out
    ensures var spec := (var m1 :- Walk(e.a, req, old(out.m)); Walk(e.b, req, m1));
      (o.Pass? <==> spec.Ok?) && (o.Pass? ==> out.m == spec.value)
      && (o.Fail? ==> o.error == spec.error)
    decreases e, 0
  {
    o := PostOrderVisit(e.a, req, out);
    if o.Fail? {
      return;
    }
    o := PostOrderVisit(e.b, req, out);
  }

  /** The expressions of `es` in order. */
  method VisitAll(es: seq<TslExpr>, req: seq<IterVar>, out: IvarShapeOut) returns (o: Outcome<IvarError>)
    modifies out
    ensures var spec := WalkAll(es, req, old(out.m));
      (o.Pass? <==> spec.Ok?) && (o.Pass? ==> out.m == spec.value)
      && (o.Fail? ==> o.error == spec.error)
    decreases es, 0
  {
    ghost var m0 := out.m;
    var i := 0;
    while i < |es|
      invariant 0 <= i <= |es|
      invariant WalkAll(es, req, m0) == WalkAll(es[i..], req, out.m)
    {
      assert es[i..][0] == es[i] && es[i..][1..] == es[i + 1..];
      o := PostOrderVisit(es[i], req, out);
      if o.Fail? {
        return;
      }
      i := i + 1;
    }
    return Pass;
  }

  /** Extract the requested variables' extents from the body of `op` into `out`. */
  method ExtractRootPathIvarShape(op: Operation, req: seq<IterVar>, out: IvarShapeOut)
    returns (o: Outcome<IvarError>)
    requires op.kind.ComputeOp?
    modifies out
    ensures var spec := Extract(op, req, old(out.m));
      (o.Pass? <==> spec.Ok?) && (o.Pass? ==> out.m == spec.value)
      && (o.Fail? ==> o.error == spec.error)
  {
    o := VisitAll(op.kind.body, req, out);
  }
}
