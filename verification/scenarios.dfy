/**
 * Whole-stage shape inference on the three operator shapes the TSL drivers exercise: a
 * reduced matrix product, an element-wise add over a twice-decomposed stage, and an
 * NHWC x HWIO convolution. Variables and tensors are parameters; node ids are fixed.
 */
module Scenarios {
  import opened Wrappers
  import opened Ir
  import opened CIndexAlgebra
  import opened DecompContext
  import opened DimCollect
  import opened ShapeInfer

  /** A pure compound index on variable `v`. */
  function P(v: Var): CIndex { [VarTerm(v)] }

  /** The sum combiner: placeholders 1 and 2, their sum 3. */
  function SumCombiner(): Combiner
  {
    Combiner([TslVar(1, Float32(), "x")], [TslVar(2, Float32(), "y")],
             [Add(3, Float32(), TslVar(1, Float32(), "x"), TslVar(2, Float32(), "y"))],
             [Foreign(7, Float32())])
  }

  /** `C[i, j] = sum over r of A[i, r] * B[r, j]`: a reduction of an NN product (node 4). */
  function GemmBody(a: Tensor, b: Tensor, i: Var, j: Var, r: Var, k: IterVar): TslExpr
  {
    Reduce(0, Float32(), SumCombiner(),
           [Gemm(4, Float32(), ProducerLoad(5, Float32(), a, [P(i), P(r)]),
                 ProducerLoad(6, Float32(), b, [P(r), P(j)]), NN)],
           [k], IntImm(Bool(), 1), 0, [])
  }

  /**
   * The product and the reduction are both indexed by `[i], [j]`; the combiner's
   * placeholders and their sum inherit that list; the agent gives the reduction the
   * finest factors of the `i` and `j` stacks and stops there.
   */
  lemma GemmStage(op: Operation, a: Tensor, b: Tensor, i: Var, j: Var, r: Var, k: IterVar,
                  si: DecompStack, sj: DecompStack)
    requires op.kind == ComputeOp([], [k], [GemmBody(a, b, i, j, r, k)]) && TslOpAttr in op.attrs
    requires i != j
    requires si.Size() > 0 && si.entries[0].pathivar.v == i
    requires sj.Size() > 0 && sj.entries[0].pathivar.v == j && sj.Size() == si.Size()
    ensures DimsOf(GemmBody(a, b, i, j, r, k)) == Ok(map[5 := [P(i), P(r)], 6 := [P(r), P(j)],
                                                     4 := [P(i), P(j)], 3 := [P(i), P(j)],
                                                     1 := [P(i), P(j)], 2 := [P(i), P(j)],
                                                     0 := [P(i), P(j)]])
    ensures InferShapeSpec(op, [si, sj]) == Ok(map[0 := [si.Finest(), sj.Finest()]])
  {
    var body := GemmBody(a, b, i, j, r, k);
    var m := map[5 := [P(i), P(r)], 6 := [P(r), P(j)], 4 := [P(i), P(j)]];
    assert Collect(body.source[0], InitState()) == Ok(CState(m, false, []));
    var st := CState(m, true, [P(i), P(j)]);
    var c := SumCombiner();
    assert Collect(c.result[0], st) == Ok(st.(dimMap := m[3 := [P(i), P(j)]]));
    var m3 := m[3 := [P(i), P(j)]];
    assert Collect(c.lhs[0], st.(dimMap := m3)) == Ok(st.(dimMap := m3[1 := [P(i), P(j)]]));
    var m1 := m3[1 := [P(i), P(j)]];
    assert Collect(c.rhs[0], st.(dimMap := m1)) == Ok(st.(dimMap := m1[2 := [P(i), P(j)]]));
    var ctx := [si, sj];
    TwoStackInit(i, j, si, sj);
    var dm := DimsOf(body).value;
    assert DimOf(dm, body) == [P(i), P(j)];
  }

  /**
   * Two stacks of equal depth for distinct variables `i` and `j`: the root `[i], [j]`
   * starts from their finest factors.
   */
  lemma TwoStackInit(i: Var, j: Var, si: DecompStack, sj: DecompStack)
    requires i != j
    requires si.Size() > 0 && si.entries[0].pathivar.v == i
    requires sj.Size() > 0 && sj.entries[0].pathivar.v == j && sj.Size() == si.Size()
    ensures InitShape([P(i), P(j)], [si, sj]) == Ok([si.Finest(), sj.Finest()])
  {
    var ctx := [si, sj];
    assert Lookup(ctx, VarTerm(i)) == Ok(si);
    assert ctx[1..] == [sj];
    assert Lookup(ctx, VarTerm(j)) == Ok(sj);
    var n := si.Size();
    assert [P(j)][1..] == [];
    assert [P(j)][0][0] == VarTerm(j);
    assert InitExtents([], ctx, n) == Ok([]);
    assert [sj.Finest()] + [] == [sj.Finest()];
    assert InitExtents([P(j)], ctx, n) == Ok([sj.Finest()]);
    assert [P(i), P(j)][1..] == [P(j)];
    assert InitExtents([P(i), P(j)], ctx, n) == Ok([si.Finest()] + [sj.Finest()]);
    assert [si.Finest()] + [sj.Finest()] == [si.Finest(), sj.Finest()];
  }

  /** `Y[i, j] = C[i, j] + X[i, j]` (nodes 0, 1, 2). */
  function AddBody(c: Tensor, x: Tensor, i: Var, j: Var): TslExpr
  {
    Add(0, Float32(), ProducerLoad(1, Float32(), c, [P(i), P(j)]),
        ProducerLoad(2, Float32(), x, [P(i), P(j)]))
  }

  /** A stack of three levels: the root extent, then tiles of 32 and 16. */
  function ThreeLevels(root: int, v0: IterVar, v1: IterVar, v2: IterVar): DecompStack
  {
    DecompStack(DataPar, [CreateEntry(root, v0), CreateEntry(32, v1), CreateEntry(16, v2)])
  }

  /**
   * A 512 x 256 add decomposed by 32 x 32 and then by 16 x 16: the output and both
   * operands get the finest tile, 16 x 16.
   */
  lemma AddStage(op: Operation, c: Tensor, x: Tensor, i0: IterVar, i1: IterVar, i2: IterVar,
                 j0: IterVar, j1: IterVar, j2: IterVar)
    requires op.kind == ComputeOp([i0, j0], [], [AddBody(c, x, i0.v, j0.v)]) && TslOpAttr in op.attrs
    requires i0.v != j0.v
    ensures InferShapeSpec(op, [ThreeLevels(512, i0, i1, i2), ThreeLevels(256, j0, j1, j2)])
            == Ok(map[0 := [16, 16], 1 := [16, 16], 2 := [16, 16]])
  {
    var i, j := i0.v, j0.v;
    var body := AddBody(c, x, i, j);
    var m := map[1 := [P(i), P(j)], 2 := [P(i), P(j)], 0 := [P(i), P(j)]];
    var s1 := CState(map[1 := [P(i), P(j)]], false, []);
    assert Collect(body.a, InitState()) == Ok(s1);
    var s2 := CState(map[1 := [P(i), P(j)], 2 := [P(i), P(j)]], false, []);
    assert Collect(body.b, s1) == Ok(s2);
    assert Collect(body, InitState()) == Ok(s2.(dimMap := m));
    assert DimsOf(body) == Ok(m);
    var si, sj := ThreeLevels(512, i0, i1, i2), ThreeLevels(256, j0, j1, j2);
    var ctx := [si, sj];
    TwoStackInit(i, j, si, sj);
    assert DimOf(m, body) == [P(i), P(j)];
    var out := map[0 := [16, 16]];
    assert Infer(body, m, ctx, out) == Ok(map[0 := [16, 16], 1 := [16, 16], 2 := [16, 16]]);
  }

  /** `O[n, h, w, c] = conv(A[n, h + rx, w + ry, rc], K[rx, ry, rc, c])` (nodes 0, 1, 2). */
  function ConvBody(a: Tensor, k: Tensor, n: Var, h: Var, w: Var, rx: Var, ry: Var, rc: Var,
                    c: Var): TslExpr
  {
    Conv(0, Float32(),
         ProducerLoad(1, Float32(), a, [P(n), [VarTerm(h), VarTerm(rx)], [VarTerm(w), VarTerm(ry)], P(rc)]),
         ProducerLoad(2, Float32(), k, [P(rx), P(ry), P(rc), P(c)]), NHWC_HWIO)
  }

  /** The convolution's output is indexed by `[n], [h], [w], [c]`. */
  lemma ConvStage(a: Tensor, k: Tensor, n: Var, h: Var, w: Var, rx: Var, ry: Var, rc: Var, c: Var)
    requires h != rx && w != ry
    ensures DimsOf(ConvBody(a, k, n, h, w, rx, ry, rc, c)).Ok?
    ensures DimsOf(ConvBody(a, k, n, h, w, rx, ry, rc, c)).value[0] == [P(n), P(h), P(w), P(c)]
  {
    ConvFilterPair(VarTerm(h), VarTerm(rx), VarTerm(rx));
    ConvFilterPair(VarTerm(w), VarTerm(ry), VarTerm(ry));
    ConvCollect(a, k, n, h, w, rx, ry, rc, c);
    assert P(rx)[0] == VarTerm(rx) && VarTerm(h) != VarTerm(rx);
    assert Without([VarTerm(h), VarTerm(rx)], VarTerm(rx)) == [VarTerm(h)] + [];
    assert [VarTerm(h)] + [] == P(h);
    assert ConvExtract([VarTerm(h), VarTerm(rx)], P(rx)) == Ok(P(h));
    assert P(ry)[0] == VarTerm(ry) && VarTerm(w) != VarTerm(ry);
    assert Without([VarTerm(w), VarTerm(ry)], VarTerm(ry)) == [VarTerm(w)] + [];
    assert [VarTerm(w)] + [] == P(w);
    assert ConvExtract([VarTerm(w), VarTerm(ry)], P(ry)) == Ok(P(w));
  }

  /** When the input's row index repeats the kernel's, the filter leaves no spatial term. */
  lemma ConvStageCollapsed(a: Tensor, k: Tensor, n: Var, w: Var, rx: Var, ry: Var, rc: Var, c: Var)
    requires w != ry
    ensures DimsOf(ConvBody(a, k, n, rx, w, rx, ry, rc, c)).Ok?
    ensures DimsOf(ConvBody(a, k, n, rx, w, rx, ry, rc, c)).value[0] == [P(n), [], P(w), P(c)]
  {
    ConvFilterPair(VarTerm(rx), VarTerm(rx), VarTerm(rx));
    ConvFilterPair(VarTerm(w), VarTerm(ry), VarTerm(ry));
    ConvCollect(a, k, n, rx, w, rx, ry, rc, c);
    assert ConvExtract([VarTerm(rx), VarTerm(rx)], P(rx)) == Ok([]);
    assert P(ry)[0] == VarTerm(ry) && VarTerm(w) != VarTerm(ry);
    assert Without([VarTerm(w), VarTerm(ry)], VarTerm(ry)) == [VarTerm(w)] + [];
    assert [VarTerm(w)] + [] == P(w);
    assert ConvExtract([VarTerm(w), VarTerm(ry)], P(ry)) == Ok(P(w));
  }

  /** The collector on a convolution body: both loads recorded, then the conv rule. */
  lemma ConvCollect(a: Tensor, k: Tensor, n: Var, h: Var, w: Var, rx: Var, ry: Var, rc: Var, c: Var)
    ensures var e := ConvBody(a, k, n, h, w, rx, ry, rc, c);
      var s2 := CState(map[2 := e.b.cIndices, 1 := e.a.cIndices], false, []);
      Collect(e, InitState()) == ConvRule(0, e.a, e.b, s2)
      && (ConvRule(0, e.a, e.b, s2).Ok? ==> DimsOf(e) == Ok(ConvRule(0, e.a, e.b, s2).value.dimMap))
  {
    var e := ConvBody(a, k, n, h, w, rx, ry, rc, c);
    var s1 := CState(map[2 := e.b.cIndices], false, []);
    assert Collect(e.b, InitState()) == Ok(s1);
    var s2 := CState(map[2 := e.b.cIndices, 1 := e.a.cIndices], false, []);
    assert Collect(e.a, s1) == Ok(s2);
  }
}
