/**
 * The bottom-up dimension collector of TSL shape inference
 * (src/tsl/te/schedule/shape.cc, `TslExprDimCollectorNChecker` and `CollectDim`).
 *
 * It walks a TSL expression and records, for every node it visits, the list of compound
 * indices that name the node's dimensions, checking the operator rules on the way.
 * While it walks the combiner of a reduction it is "in the combiner" and hands the
 * reduction source's index list (`prop`) to the combiner's placeholders.
 *
 * `Collect` is the walk as a function of the collector state; `Collector.Visit` is the
 * walk as the source writes it, updating the collector's fields in place, and is proved
 * to compute `Collect`. `CollectConsistent` states what a successful walk establishes.
 */
module DimCollect {
  import opened Wrappers
  import opened Ir
  import opened CIndexAlgebra
  import opened DecompContext

  /** Fatal conditions of shape inference. */
  datatype ShapeError =
    | NotVisited              // an operand has no recorded index list
    | WrongNDim               // an operand has the wrong number of compound indices
    | IndicesNotEqual         // the operands of an Add are indexed differently
    | VarOutsideCombiner      // a combiner placeholder outside a combiner
    | SourceCount             // a reduction with other than one source
    | ResultCount             // a combiner with other than one result
    | OutOfRange              // an array access past its end
    | ConvIndex(e: CIndexError)
    | NotComputeOp
    | NotTslOp
    | BodyCount
    | UnsupportedBody
    | NotPure                 // a compound index with more than one term where one is needed
    | DepthMismatch           // decomposition stacks of different depth
    | NoStack(d: DecompError)

  /** The collector's state: the per-node map, the combiner flag and the propagated list. */
  datatype CState = CState(dimMap: map<nat, CIndices>, inCombiner: bool, prop: CIndices)

  /** The state a fresh collector starts in. */
  function InitState(): CState { CState(map[], false, []) }

  /** The index list recorded for node `x`; fatal when there is none. */
  function Dims(st: CState, x: TslExpr): Result<CIndices, ShapeError>
  {
    if x.nid in st.dimMap then Ok(st.dimMap[x.nid]) else Err(NotVisited)
  }

  /**
   * The index list of a matrix product: the row index of the left operand and the column
   * index of the right operand, with `T` marking an operand stored transposed.
   */
  function GemmDims(t: GemmType, da: CIndices, db: CIndices): (r: CIndices)
    requires |da| == 2 && |db| == 2
    ensures |r| == 2
  {
    match t
    case NN => [da[0], db[1]]
    case NT => [da[0], db[0]]
    case TN => [da[1], db[1]]
    case TT => [da[1], db[0]]
  }

  /** Position of the contracted (K) dimension in the left operand. */
  function LeftK(t: GemmType): nat { if t == NN || t == NT then 1 else 0 }
  /** Position of the contracted (K) dimension in the right operand. */
  function RightK(t: GemmType): nat { if t == NN || t == TN then 0 else 1 }

  /**
   * A product's dimensions are the operands' non-contracted dimensions: the left
   * operand's first, then the right operand's.
   */
  lemma GemmDimsDropContraction(t: GemmType, da: CIndices, db: CIndices)
    requires |da| == 2 && |db| == 2
    ensures GemmDims(t, da, db) == [da[1 - LeftK(t)], db[1 - RightK(t)]]
  {
  }

  /** The index list of an NHWC x HWIO convolution, or the filter failure. */
  function ConvDims(da: CIndices, db: CIndices): (r: Result<CIndices, ShapeError>)
    requires |da| == 4 && |db| == 4
    ensures r.Ok? ==> |r.value| == 4 && r.value[0] == da[0] && r.value[3] == db[3]
  {
    var h := ConvExtract(da[1], db[0]);
    if h.Err? then Err(ConvIndex(h.error))
    else
      var w := ConvExtract(da[2], db[1]);
      if w.Err? then Err(ConvIndex(w.error))
      else Ok([da[0], h.value, w.value, db[3]])
  }

  /** The dimension walk, as a function of the collector state. */
  function Collect(e: TslExpr, st: CState): Result<CState, ShapeError>
    decreases e
  {
    match e
    case ProducerLoad(nid, _, _, ci) =>
      Ok(st.(dimMap := st.dimMap[nid := ci]))
    case Add(nid, _, a, b) =>
      if st.inCombiner then Ok(st.(dimMap := st.dimMap[nid := st.prop]))
      else
        var s1 :- Collect(a, st);
        var s2 :- Collect(b, s1);
        var da :- Dims(s2, a);
        var db :- Dims(s2, b);
        if |da| != 2 || |db| != 2 then Err(WrongNDim)
        else if da != db then Err(IndicesNotEqual)
        else Ok(s2.(dimMap := s2.dimMap[nid := da]))
    case TslVar(nid, _, _) =>
      if !st.inCombiner then Err(VarOutsideCombiner)
      else Ok(st.(dimMap := st.dimMap[nid := st.prop]))
    case Reduce(nid, _, comb, src, _, _, _, _) =>
      if |src| != 1 then Err(SourceCount)
      else if |comb.result| != 1 then Err(ResultCount)
      else
        var s1 :- Collect(src[0], st);
        var ds :- Dims(s1, src[0]);
        var s2 :- Collect(comb.result[0], s1.(inCombiner := true, prop := ds));
        if |comb.lhs| == 0 then Err(OutOfRange)
        else
          var s3 :- Collect(comb.lhs[0], s2);
          if |comb.rhs| == 0 then Err(OutOfRange)
          else
            var s4 :- Collect(comb.rhs[0], s3);
            Ok(s4.(inCombiner := false, dimMap := s4.dimMap[nid := s4.prop]))
    case Gemm(nid, _, a, b, t) =>
      var s1 :- Collect(a, st);
      var s2 :- Collect(b, s1);
      var da :- Dims(s2, a);
      var db :- Dims(s2, b);
      if |da| != 2 || |db| != 2 then Err(WrongNDim)
      else Ok(s2.(dimMap := s2.dimMap[nid := GemmDims(t, da, db)]))
    case Conv(nid, _, a, b, _) =>
      var s1 :- Collect(b, st);
      var s2 :- Collect(a, s1);
      ConvRule(nid, a, b, s2)
    case Foreign(_, _) =>
      Ok(st)
  }

  /** The convolution rule, applied once both operands have been walked. */
  function ConvRule(nid: nat, a: TslExpr, b: TslExpr, s2: CState): Result<CState, ShapeError>
  {
    var da :- Dims(s2, a);
    var db :- Dims(s2, b);
    if |da| != 4 || |db| != 4 then Err(WrongNDim)
    else
      var out :- ConvDims(da, db);
      Ok(s2.(dimMap := s2.dimMap[nid := out]))
  }

  /** The per-node map of a whole expression, walked from a fresh collector. */
  function DimsOf(e: TslExpr): Result<map<nat, CIndices>, ShapeError>
  {
    var st :- Collect(e, InitState());
    Ok(st.dimMap)
  }

  /**
   * The ids of the nodes the walk visits from `e` when it starts in (`comb`) or out of
   * a combiner: an Add inside a combiner does not descend.
   */
  function Visited(e: TslExpr, comb: bool): set<nat>
    decreases e
  {
    match e
    case Add(nid, _, a, b) =>
      if comb then {nid} else {nid} + Visited(a, false) + Visited(b, false)
    case Gemm(nid, _, a, b, _) => {nid} + Visited(a, comb) + Visited(b, comb)
    case Conv(nid, _, a, b, _) => {nid} + Visited(a, comb) + Visited(b, comb)
    case Reduce(nid, _, c, src, _, _, _, _) =>
      {nid}
      + (if |src| > 0 then Visited(src[0], comb) else {})
      + (if |c.result| > 0 then Visited(c.result[0], true) else {})
      + (if |c.lhs| > 0 then Visited(c.lhs[0], true) else {})
      + (if |c.rhs| > 0 then Visited(c.rhs[0], true) else {})
    case _ => {e.nid}
  }

  /**
   * The shape the rules assume: every node the walk visits has its own id, and no
   * reduction is nested inside a combiner.
   */
  predicate WellFormed(e: TslExpr, comb: bool)
    decreases e
  {
    match e
    case Add(nid, _, a, b) =>
      comb ||
      (WellFormed(a, false) && WellFormed(b, false)
       && nid !in Visited(a, false) && nid !in Visited(b, false)
       && Visited(a, false) !! Visited(b, false))
    case Gemm(nid, _, a, b, _) =>
      WellFormed(a, comb) && WellFormed(b, comb)
      && nid !in Visited(a, comb) && nid !in Visited(b, comb) && Visited(a, comb) !! Visited(b, comb)
    case Conv(nid, _, a, b, _) =>
      WellFormed(a, comb) && WellFormed(b, comb)
      && nid !in Visited(a, comb) && nid !in Visited(b, comb) && Visited(a, comb) !! Visited(b, comb)
    case Reduce(nid, _, c, src, _, _, _, _) =>
      !comb && |src| == 1 && |c.result| == 1 && |c.lhs| > 0 && |c.rhs| > 0
      && WellFormed(src[0], false) && WellFormed(c.result[0], true)
      && WellFormed(c.lhs[0], true) && WellFormed(c.rhs[0], true)
      && var vs, vr, vl, vh := Visited(src[0], false), Visited(c.result[0], true),
                               Visited(c.lhs[0], true), Visited(c.rhs[0], true);
      nid !in vs && nid !in vr && nid !in vl && nid !in vh
      && vs !! vr && vs !! vl && vs !! vh && vr !! vl && vr !! vh && vl !! vh
    case _ => true
  }

  /**
   * The operator rules, read off a finished map `m` for the nodes visited from `e` in
   * (`comb`, with propagated list `p`) or out of a combiner.
   */
  predicate Consistent(e: TslExpr, m: map<nat, CIndices>, comb: bool, p: CIndices)
    decreases e
  {
    match e
    case ProducerLoad(nid, _, _, ci) => nid in m && m[nid] == ci
    case Add(nid, _, a, b) =>
      nid in m &&
      if comb then m[nid] == p
      else
        Consistent(a, m, false, []) && Consistent(b, m, false, [])
        && a.nid in m && b.nid in m && |m[a.nid]| == 2
        && m[b.nid] == m[a.nid] && m[nid] == m[a.nid]
    case TslVar(nid, _, _) => comb && nid in m && m[nid] == p
    case Gemm(nid, _, a, b, t) =>
      Consistent(a, m, comb, p) && Consistent(b, m, comb, p)
      && nid in m && a.nid in m && b.nid in m && |m[a.nid]| == 2 && |m[b.nid]| == 2
      && m[nid] == GemmDims(t, m[a.nid], m[b.nid])
    case Conv(nid, _, a, b, _) =>
      Consistent(a, m, comb, p) && Consistent(b, m, comb, p)
      && nid in m && a.nid in m && b.nid in m && |m[a.nid]| == 4 && |m[b.nid]| == 4
      && ConvDims(m[a.nid], m[b.nid]) == Ok(m[nid])
    case Reduce(nid, _, c, src, _, _, _, _) =>
      !comb && |src| == 1 && |c.result| == 1 && |c.lhs| > 0 && |c.rhs| > 0
      && Consistent(src[0], m, false, []) && src[0].nid in m && nid in m
      && var q := m[src[0].nid];
      Consistent(c.result[0], m, true, q) && Consistent(c.lhs[0], m, true, q)
      && Consistent(c.rhs[0], m, true, q) && m[nid] == q
    case Foreign(_, _) => true
  }

  /** `m2` keeps every entry `m1` has for the ids in `s`. */
  predicate KeepsOn(m1: map<nat, CIndices>, m2: map<nat, CIndices>, s: set<nat>)
  {
    forall k :: k in s && k in m1 ==> k in m2 && m2[k] == m1[k]
  }

  /** The rules read off a map depend only on the entries of the visited nodes. */
  lemma {:induction false} ConsistentFrame(e: TslExpr, m1: map<nat, CIndices>, m2: map<nat, CIndices>,
                                           comb: bool, p: CIndices)
    requires Consistent(e, m1, comb, p)
    requires KeepsOn(m1, m2, Visited(e, comb))
    ensures Consistent(e, m2, comb, p)
    decreases e
  {
    match e
    case ProducerLoad(_, _, _, _) =>
    case TslVar(_, _, _) =>
    case Foreign(_, _) =>
    case Add(nid, _, a, b) =>
      if !comb {
        ConsistentFrame(a, m1, m2, false, []);
        ConsistentFrame(b, m1, m2, false, []);
      }
    case Gemm(nid, _, a, b, _) =>
      ConsistentFrame(a, m1, m2, comb, p);
      ConsistentFrame(b, m1, m2, comb, p);
    case Conv(nid, _, a, b, _) =>
      ConsistentFrame(a, m1, m2, comb, p);
      ConsistentFrame(b, m1, m2, comb, p);
    case Reduce(nid, _, c, src, _, _, _, _) =>
      var q := m1[src[0].nid];
      ConsistentFrame(src[0], m1, m2, false, []);
      ConsistentFrame(c.result[0], m1, m2, true, q);
      ConsistentFrame(c.lhs[0], m1, m2, true, q);
      ConsistentFrame(c.rhs[0], m1, m2, true, q);
  }

  /** `m2` keeps every entry of `m1` outside the ids `s`. */
  predicate KeepsOutside(m1: map<nat, CIndices>, m2: map<nat, CIndices>, s: set<nat>)
  {
    forall k :: k in m1 && k !in s ==> k in m2 && m2[k] == m1[k]
  }

  /**
   * `st2` keeps the combiner flag of `st1`, its propagated list when inside a combiner,
   * and every map entry outside `s`.
   */
  predicate Preserves(st1: CState, st2: CState, s: set<nat>)
  {
    st2.inCombiner == st1.inCombiner && (st1.inCombiner ==> st2.prop == st1.prop)
    && KeepsOutside(st1.dimMap, st2.dimMap, s)
  }

  /**
   * A successful walk of a well-formed expression writes only entries of visited nodes,
   * keeps every other entry, and leaves the combiner flag (and, inside a combiner, the
   * propagated list) as it found them.
   */
  lemma {:induction false} CollectFrame(e: TslExpr, st: CState)
    requires WellFormed(e, st.inCombiner)
    requires Collect(e, st).Ok?
    ensures Preserves(st, Collect(e, st).value, Visited(e, st.inCombiner))
    decreases e, 1
  {
    match e
    case ProducerLoad(_, _, _, _) =>
    case TslVar(_, _, _) =>
    case Foreign(_, _) =>
    case Add(_, _, _, _) =>
      if !st.inCombiner { FrameBinary(e, st); }
    case Gemm(_, _, _, _, _) => FrameBinary(e, st);
    case Conv(_, _, _, _, _) => FrameBinary(e, st);
    case Reduce(_, _, _, _, _, _, _, _) => FrameReduce(e, st);
  }

  /** `CollectFrame` for an Add outside a combiner, a product and a convolution. */
  lemma {:induction false} FrameBinary(e: TslExpr, st: CState)
    requires e.Gemm? || e.Conv? || (e.Add? && !st.inCombiner)
    requires WellFormed(e, st.inCombiner)
    requires Collect(e, st).Ok?
    ensures Preserves(st, Collect(e, st).value, Visited(e, st.inCombiner))
    decreases e, 0
  {
    var (x, y) := if e.Conv? then (e.b, e.a) else (e.a, e.b);
    var s1 := Collect(x, st).value;
    CollectFrame(x, st);
    CollectFrame(y, s1);
  }

  /** `CollectFrame` for a reduction. */
  lemma {:induction false} FrameReduce(e: TslExpr, st: CState)
    requires e.Reduce?
    requires WellFormed(e, st.inCombiner)
    requires Collect(e, st).Ok?
    ensures Preserves(st, Collect(e, st).value, Visited(e, st.inCombiner))
    decreases e, 0
  {
    var c := e.combiner;
    var s1 := Collect(e.source[0], st).value;
    CollectFrame(e.source[0], st);
    var s1' := s1.(inCombiner := true, prop := s1.dimMap[e.source[0].nid]);
    var s2 := Collect(c.result[0], s1').value;
    CollectFrame(c.result[0], s1');
    var s3 := Collect(c.lhs[0], s2).value;
    CollectFrame(c.lhs[0], s2);
    CollectFrame(c.rhs[0], s3);
  }

  /** The list the rules hand to combiner placeholders: only meaningful inside a combiner. */
  function PropOf(st: CState): CIndices
  {
    if st.inCombiner then st.prop else []
  }

  /** A node's own id is among the ids its walk visits. */
  lemma NidVisited(e: TslExpr, comb: bool)
    ensures e.nid in Visited(e, comb)
  {
  }

  /**
   * What a successful walk establishes: on a well-formed expression every visited node's
   * entry obeys its operator rule (a tensor read keeps its own indices; an Add's operands
   * carry the same two indices and so does the Add; a product selects by layout; a
   * convolution drops the kernel terms; a reduction, its combiner's result and
   * placeholders all carry the source's list), and a placeholder is never met outside a
   * combiner.
   */
  lemma {:induction false} CollectConsistent(e: TslExpr, st: CState)
    requires WellFormed(e, st.inCombiner)
    requires Collect(e, st).Ok?
    ensures Consistent(e, Collect(e, st).value.dimMap, st.inCombiner, PropOf(st))
    decreases e, 2
  {
    match e
    case ProducerLoad(_, _, _, _) =>
    case TslVar(_, _, _) =>
    case Foreign(_, _) =>
    case Add(_, _, _, _) =>
      if !st.inCombiner { ConsistentAdd(e, st); }
    case Gemm(_, _, _, _, _) => ConsistentGemm(e, st);
    case Conv(_, _, _, _, _) => ConsistentConv(e, st);
    case Reduce(_, _, _, _, _, _, _, _) => ConsistentReduce(e, st);
  }

  /** Entries outside a set that are kept are in particular kept on a disjoint set. */
  lemma KeepsDisjoint(m1: map<nat, CIndices>, m2: map<nat, CIndices>, s: set<nat>, t: set<nat>)
    requires KeepsOutside(m1, m2, t) && s !! t
    ensures KeepsOn(m1, m2, s)
  {
  }

  /** `CollectConsistent` for an Add outside a combiner. */
  lemma {:induction false} ConsistentAdd(e: TslExpr, st: CState)
    requires e.Add? && !st.inCombiner
    requires WellFormed(e, st.inCombiner)
    requires Collect(e, st).Ok?
    ensures Consistent(e, Collect(e, st).value.dimMap, st.inCombiner, PropOf(st))
    decreases e, 1
  {
    var st' := Collect(e, st).value;
    var s1 := Collect(e.a, st).value;
    var s2 := Collect(e.b, s1).value;
    CollectFrame(e.a, st);
    CollectFrame(e.b, s1);
    NidVisited(e.a, false);
    NidVisited(e.b, false);
    CollectConsistent(e.a, st);
    KeepsDisjoint(s1.dimMap, s2.dimMap, Visited(e.a, false), Visited(e.b, false));
    ConsistentFrame(e.a, s1.dimMap, s2.dimMap, false, []);
    ConsistentFrame(e.a, s2.dimMap, st'.dimMap, false, []);
    CollectConsistent(e.b, s1);
    ConsistentFrame(e.b, s2.dimMap, st'.dimMap, false, []);
  }

  /** `CollectConsistent` for a matrix product. */
  lemma {:induction false} ConsistentGemm(e: TslExpr, st: CState)
    requires e.Gemm?
    requires WellFormed(e, st.inCombiner)
    requires Collect(e, st).Ok?
    ensures Consistent(e, Collect(e, st).value.dimMap, st.inCombiner, PropOf(st))
    decreases e, 1
  {
    var (comb, p) := (st.inCombiner, PropOf(st));
    var st' := Collect(e, st).value;
    var s1 := Collect(e.a, st).value;
    var s2 := Collect(e.b, s1).value;
    CollectFrame(e.a, st);
    CollectFrame(e.b, s1);
    NidVisited(e.a, comb);
    NidVisited(e.b, comb);
    CollectConsistent(e.a, st);
    KeepsDisjoint(s1.dimMap, s2.dimMap, Visited(e.a, comb), Visited(e.b, comb));
    ConsistentFrame(e.a, s1.dimMap, s2.dimMap, comb, p);
    ConsistentFrame(e.a, s2.dimMap, st'.dimMap, comb, p);
    CollectConsistent(e.b, s1);
    ConsistentFrame(e.b, s2.dimMap, st'.dimMap, comb, p);
  }

  /** What a successful convolution rule reads and writes. */
  lemma ConvRuleOk(nid: nat, a: TslExpr, b: TslExpr, s2: CState)
    requires ConvRule(nid, a, b, s2).Ok?
    ensures a.nid in s2.dimMap && b.nid in s2.dimMap
    ensures |s2.dimMap[a.nid]| == 4 && |s2.dimMap[b.nid]| == 4
    ensures ConvDims(s2.dimMap[a.nid], s2.dimMap[b.nid]).Ok?
    ensures ConvRule(nid, a, b, s2).value
            == s2.(dimMap := s2.dimMap[nid := ConvDims(s2.dimMap[a.nid], s2.dimMap[b.nid]).value])
  {
  }

  /** After both operands of a convolution are walked, each operand's rules hold. */
  lemma {:induction false} ConvOperands(e: TslExpr, st: CState)
    requires e.Conv?
    requires WellFormed(e, st.inCombiner)
    requires Collect(e.b, st).Ok? && Collect(e.a, Collect(e.b, st).value).Ok?
    ensures var s2 := Collect(e.a, Collect(e.b, st).value).value;
      Consistent(e.a, s2.dimMap, st.inCombiner, PropOf(st)) && Consistent(e.b, s2.dimMap, st.inCombiner, PropOf(st))
    decreases e, 0
  {
    var (comb, p) := (st.inCombiner, PropOf(st));
    var s1 := Collect(e.b, st).value;
    var s2 := Collect(e.a, s1).value;
    CollectFrame(e.b, st);
    CollectFrame(e.a, s1);
    CollectConsistent(e.b, st);
    KeepsDisjoint(s1.dimMap, s2.dimMap, Visited(e.b, comb), Visited(e.a, comb));
    ConsistentFrame(e.b, s1.dimMap, s2.dimMap, comb, p);
    CollectConsistent(e.a, s1);
  }

  /** `CollectConsistent` for a convolution (kernel operand walked first). */
  lemma {:induction false} ConsistentConv(e: TslExpr, st: CState)
    requires e.Conv?
    requires WellFormed(e, st.inCombiner)
    requires Collect(e, st).Ok?
    ensures Consistent(e, Collect(e, st).value.dimMap, st.inCombiner, PropOf(st))
    decreases e, 1
  {
    var (comb, p) := (st.inCombiner, PropOf(st));
    var st' := Collect(e, st).value;
    var s1 := Collect(e.b, st).value;
    var s2 := Collect(e.a, s1).value;
    ConvRuleOk(e.nid, e.a, e.b, s2);
    ConvOperands(e, st);
    NidVisited(e.a, comb);
    NidVisited(e.b, comb);
    ConsistentFrame(e.b, s2.dimMap, st'.dimMap, comb, p);
    ConsistentFrame(e.a, s2.dimMap, st'.dimMap, comb, p);
  }

  /** `CollectConsistent` for a reduction. */
  lemma {:induction false} ConsistentReduce(e: TslExpr, st: CState)
    requires e.Reduce?
    requires WellFormed(e, st.inCombiner)
    requires Collect(e, st).Ok?
    ensures Consistent(e, Collect(e, st).value.dimMap, st.inCombiner, PropOf(st))
    decreases e, 1
  {
    var c := e.combiner;
    var (s0, r0, l0, h0) := (e.source[0], c.result[0], c.lhs[0], c.rhs[0]);
    var st' := Collect(e, st).value;
    var s1 := Collect(s0, st).value;
    var q := s1.dimMap[s0.nid];
    var s1' := s1.(inCombiner := true, prop := q);
    var s2 := Collect(r0, s1').value;
    var s3 := Collect(l0, s2).value;
    var s4 := Collect(h0, s3).value;
    CollectFrame(s0, st);
    CollectFrame(r0, s1');
    CollectFrame(l0, s2);
    CollectFrame(h0, s3);
    var (vs, vr, vl, vh) := (Visited(s0, false), Visited(r0, true), Visited(l0, true), Visited(h0, true));
    NidVisited(s0, false);
    KeepsDisjoint(s1.dimMap, s2.dimMap, vs, vr);
    KeepsDisjoint(s2.dimMap, s3.dimMap, vs + vr, vl);
    KeepsDisjoint(s3.dimMap, s4.dimMap, vs + vr + vl, vh);
    assert KeepsOn(s4.dimMap, st'.dimMap, vs + vr + vl + vh);
    CollectConsistent(s0, st);
    ConsistentFrame(s0, s1.dimMap, s2.dimMap, false, []);
    ConsistentFrame(s0, s2.dimMap, s3.dimMap, false, []);
    ConsistentFrame(s0, s3.dimMap, s4.dimMap, false, []);
    ConsistentFrame(s0, s4.dimMap, st'.dimMap, false, []);
    CollectConsistent(r0, s1');
    ConsistentFrame(r0, s2.dimMap, s3.dimMap, true, q);
    ConsistentFrame(r0, s3.dimMap, s4.dimMap, true, q);
    ConsistentFrame(r0, s4.dimMap, st'.dimMap, true, q);
    CollectConsistent(l0, s2);
    ConsistentFrame(l0, s3.dimMap, s4.dimMap, true, q);
    ConsistentFrame(l0, s4.dimMap, st'.dimMap, true, q);
    CollectConsistent(h0, s3);
    ConsistentFrame(h0, s4.dimMap, st'.dimMap, true, q);
  }

  /**
   * Every operator rule holds in the map of a successful walk of a well-formed
   * expression from a fresh collector.
   */
  lemma DimsOfConsistent(e: TslExpr)
    requires WellFormed(e, false)
    requires DimsOf(e).Ok?
    ensures Consistent(e, DimsOf(e).value, false, [])
  {
    CollectConsistent(e, InitState());
  }

  /** The collector object: the per-node map and the combiner state it toggles. */
  class Collector {
    var dimMap: map<nat, CIndices>
    var inCombiner: bool
    var prop: CIndices

    /** The collector's fields as a value. */
    function State(): CState
      reads this
    {
      CState(dimMap, inCombiner, prop)
    }

    constructor ()
      ensures State() == InitState()
    {
      dimMap := map[];
      inCombiner := false;
      prop := [];
    }

    /** Visit `e`, recording index lists and checking the operator rules. */
    method Visit(e: TslExpr) returns (o: Outcome<ShapeError>)
      modifies this
      ensures o.Pass? <==> Collect(e, old(State())).Ok?
      ensures o.Pass? ==> State() == Collect(e, old(State())).value
      ensures o.Fail? ==> o.error == Collect(e, old(State())).error
      decreases e, 1
    {
      match e
      case ProducerLoad(nid, _, _, ci) =>
        dimMap := dimMap[nid := ci];
        return Pass;
      case Add(_, _, _, _) =>
        o := VisitAdd(e);
      case TslVar(nid, _, _) =>
        if !inCombiner {
          return Fail(VarOutsideCombiner);
        }
        dimMap := dimMap[nid := prop];
        return Pass;
      case Reduce(_, _, _, _, _, _, _, _) =>
        o := VisitReduce(e);
      case Gemm(_, _, _, _, _) =>
        o := VisitGemm(e);
      case Conv(_, _, _, _, _) =>
        o := VisitConv(e);
      case Foreign(_, _) =>
        return Pass;
    }

    /** The Add rule. */
    method VisitAdd(e: TslExpr) returns (o: Outcome<ShapeError>)
      requires e.Add?
      modifies this
      ensures o.Pass? <==> Collect(e, old(State())).Ok?
      ensures o.Pass? ==> State() == Collect(e, old(State())).value
      ensures o.Fail? ==> o.error == Collect(e, old(State())).error
      decreases e, 0
    {
      var (nid, a, b) := (e.nid, e.a, e.b);
      if !inCombiner {
        o := Visit(a);
        if o.Fail? { return; }
        o := Visit(b);
        if o.Fail? { return; }
        if a.nid !in dimMap || b.nid !in dimMap {
          return Fail(NotVisited);
        }
        if |dimMap[a.nid]| != 2 || |dimMap[b.nid]| != 2 {
          return Fail(WrongNDim);
        }
        var eq := IsCIndicesEqual(dimMap[a.nid], dimMap[b.nid]);
        if !eq {
          return Fail(IndicesNotEqual);
        }
        dimMap := dimMap[nid := dimMap[a.nid]];
      } else {
        dimMap := dimMap[nid := prop];
      }
      return Pass;
    }

    /** The reduction rule: walk the source, then the combiner with the source's list. */
    method VisitReduce(e: TslExpr) returns (o: Outcome<ShapeError>)
      requires e.Reduce?
      modifies this
      ensures o.Pass? <==> Collect(e, old(State())).Ok?
      ensures o.Pass? ==> State() == Collect(e, old(State())).value
      ensures o.Fail? ==> o.error == Collect(e, old(State())).error
      decreases e, 0
    {
      var (nid, comb, src) := (e.nid, e.combiner, e.source);
      if |src| != 1 {
        return Fail(SourceCount);
      }
      if |comb.result| != 1 {
        return Fail(ResultCount);
      }
      o := Visit(src[0]);
      if o.Fail? { return; }
      if src[0].nid !in dimMap {
        return Fail(NotVisited);
      }
      inCombiner := true;
      prop := dimMap[src[0].nid];
      o := Visit(comb.result[0]);
      if o.Fail? { return; }
      if |comb.lhs| == 0 {
        return Fail(OutOfRange);
      }
      o := Visit(comb.lhs[0]);
      if o.Fail? { return; }
      if |comb.rhs| == 0 {
        return Fail(OutOfRange);
      }
      o := Visit(comb.rhs[0]);
      if o.Fail? { return; }
      inCombiner := false;
      dimMap := dimMap[nid := prop];
      return Pass;
    }

    /** The matrix-product rule: pick the output's indices by layout. */
    method VisitGemm(e: TslExpr) returns (o: Outcome<ShapeError>)
      requires e.Gemm?
      modifies this
      ensures o.Pass? <==> Collect(e, old(State())).Ok?
      ensures o.Pass? ==> State() == Collect(e, old(State())).value
      ensures o.Fail? ==> o.error == Collect(e, old(State())).error
      decreases e, 0
    {
      var (nid, a, b) := (e.nid, e.a, e.b);
      o := Visit(a);
      if o.Fail? { return; }
      o := Visit(b);
      if o.Fail? { return; }
      if a.nid !in dimMap || b.nid !in dimMap {
        return Fail(NotVisited);
      }
      var da, db := dimMap[a.nid], dimMap[b.nid];
      if |da| != 2 || |db| != 2 {
        return Fail(WrongNDim);
      }
      var out: CIndices := [];
      match e.gemmType {
        case NN => out := out + [da[0]]; out := out + [db[1]];
        case NT => out := out + [da[0]]; out := out + [db[0]];
        case TN => out := out + [da[1]]; out := out + [db[1]];
        case TT => out := out + [da[1]]; out := out + [db[0]];
      }
      assert out == GemmDims(e.gemmType, da, db);
      dimMap := dimMap[nid := out];
      return Pass;
    }

    /** The convolution rule: kernel first, then drop the kernel terms from the input's. */
    method VisitConv(e: TslExpr) returns (o: Outcome<ShapeError>)
      requires e.Conv?
      modifies this
      ensures o.Pass? <==> Collect(e, old(State())).Ok?
      ensures o.Pass? ==> State() == Collect(e, old(State())).value
      ensures o.Fail? ==> o.error == Collect(e, old(State())).error
      decreases e, 0
    {
      var (nid, a, b) := (e.nid, e.a, e.b);
      ghost var s0 := State();
      o := Visit(b);
      if o.Fail? { return; }
      ghost var s1 := State();
      o := Visit(a);
      if o.Fail? { return; }
      ghost var s2 := State();
      assert Collect(e, s0) == ConvRule(nid, a, b, s2);
      if a.nid !in dimMap || b.nid !in dimMap {
        return Fail(NotVisited);
      }
      var da, db := dimMap[a.nid], dimMap[b.nid];
      if |da| != 4 || |db| != 4 {
        return Fail(WrongNDim);
      }
      var r := ConvOutDims(da, db);
      if r.Err? {
        return Fail(r.error);
      }
      var out := r.value;
      dimMap := dimMap[nid := out];
      return Pass;
    }
  }

  /**
   * The output index list of an NHWC x HWIO convolution from its input (`da`) and kernel
   * (`db`) lists: batch from the input, height and width from the input with the kernel
   * terms dropped, channels from the kernel.
   */
  method ConvOutDims(da: CIndices, db: CIndices) returns (r: Result<CIndices, ShapeError>)
    requires |da| == 4 && |db| == 4
    ensures r == ConvDims(da, db)
  {
    var out: CIndices := [da[0]];
    var h := ExtractNonReductionForConv(da[1], db[0]);
    if h.Err? {
      return Err(ConvIndex(h.error));
    }
    out := out + [h.value];
    var w := ExtractNonReductionForConv(da[2], db[1]);
    if w.Err? {
      return Err(ConvIndex(w.error));
    }
    out := out + [w.value];
    out := out + [db[3]];
    assert out == [da[0], h.value, w.value, db[3]];
    return Ok(out);
  }

  /** Run a fresh collector over `e` and return its per-node map. */
  method CollectDim(e: TslExpr) returns (r: Result<map<nat, CIndices>, ShapeError>)
    ensures r == DimsOf(e)
  {
    var c := new Collector();
    var o := c.Visit(e);
    if o.Fail? {
      return Err(o.error);
    }
    return Ok(c.dimMap);
  }
}
