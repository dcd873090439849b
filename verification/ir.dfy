/**
 * The intermediate representation the TSL core works on: data types, loop variables,
 * operations, tensors and the compound-index ("TSL") expression nodes.
 *
 * Objects that the C++ code compares by pointer (variables, iteration variables,
 * operations) are Dafny classes, so `==` is reference identity. Expression nodes are
 * values that carry a node id `nid`; a map keyed by a node pointer in the C++ code is
 * a map keyed by `nid` here.
 */
module Ir {
  import opened Wrappers

  /** Type code of a scalar data type. */
  datatype TypeCode = Int | UInt | Float | Handle

  /** A data type: code, bit width and vector lanes. */
  datatype DType = DType(code: TypeCode, bits: int, lanes: int)

  function Int32(): DType { DType(Int, 32, 1) }
  function Float32(): DType { DType(Float, 32, 1) }
  /** The boolean type, an unsigned one-bit integer. */
  function Bool(): DType { DType(UInt, 1, 1) }

  /** Kinds of iteration variables, in the declaration order of the IR. */
  datatype IterVarType =
    | DataPar | ThreadIndex | CommReduce | Ordered | Opaque
    | Unrolled | Vectorized | Parallelized | Tensorized

  /** The integer value of an iteration-variable kind in its enumeration. */
  function Rank(t: IterVarType): (r: nat)
    ensures r <= 8
  {
    match t
    case DataPar => 0
    case ThreadIndex => 1
    case CommReduce => 2
    case Ordered => 3
    case Opaque => 4
    case Unrolled => 5
    case Vectorized => 6
    case Parallelized => 7
    case Tensorized => 8
  }

  /** The kind with the larger enumeration value. */
  function MaxType(a: IterVarType, b: IterVarType): (r: IterVarType)
    ensures Rank(r) >= Rank(a) && Rank(r) >= Rank(b)
    ensures r == a || r == b
  {
    if Rank(a) >= Rank(b) then a else b
  }

  /** A half-open interval `[min, min + extent)`. */
  datatype Range = Range(min: int, extent: int)

  /** A scalar variable; identity is the object. */
  class Var {
    const name: string
    const dtype: DType

    constructor (name: string, dtype: DType)
      ensures this.name == name && this.dtype == dtype
    {
      this.name := name;
      this.dtype := dtype;
    }
  }

  /** An iteration variable: an optional domain, the loop variable, its kind and thread tag. */
  class IterVar {
    const dom: Option<Range>
    const v: Var
    const iterType: IterVarType
    const threadTag: string

    constructor (dom: Option<Range>, v: Var, iterType: IterVarType, threadTag: string)
      ensures this.dom == dom && this.v == v && this.iterType == iterType
      ensures this.threadTag == threadTag
    {
      this.dom := dom;
      this.v := v;
      this.iterType := iterType;
      this.threadTag := threadTag;
    }
  }

  /**
   * One term of a compound index. Terms are compared by identity: a variable term by
   * the variable object, any other index expression by its node id.
   */
  datatype Term = VarTerm(v: Var) | OpaqueTerm(id: nat)

  /** A compound index: the terms that together address one tensor dimension. */
  type CIndex = seq<Term>
  /** One compound index per dimension. */
  type CIndices = seq<CIndex>

  /** A scalar expression outside the TSL node family. */
  datatype PrimExpr =
    | IntImm(dtype: DType, value: int)
    | FloatImm(dtype: DType)
    | Other(id: nat, dtype: DType)

  /** The operand layouts of a TSL matrix multiply (N: as stored, T: transposed). */
  datatype GemmType = NN | NT | TN | TT

  /** The layouts of a TSL convolution: NHWC input with an HWIO kernel. */
  datatype ConvType = NHWC_HWIO

  /**
   * A TSL expression node. `nid` is the node's identity; `dtype` its element type.
   * `Foreign` stands for any TSL node kind the visitors of this model do not handle.
   */
  datatype TslExpr =
    | ProducerLoad(nid: nat, dtype: DType, producer: Tensor, cIndices: CIndices)
    | Add(nid: nat, dtype: DType, a: TslExpr, b: TslExpr)
    | Gemm(nid: nat, dtype: DType, a: TslExpr, b: TslExpr, gemmType: GemmType)
    | Conv(nid: nat, dtype: DType, a: TslExpr, b: TslExpr, convType: ConvType)
    | TslVar(nid: nat, dtype: DType, name: string)
    | Reduce(nid: nat, dtype: DType, combiner: Combiner, source: seq<TslExpr>,
             axis: seq<IterVar>, condition: PrimExpr, valueIndex: int, init: seq<TslExpr>)
    | Foreign(nid: nat, dtype: DType)

  /** A commutative reducer: `result` combines the `lhs` and `rhs` variables. */
  datatype Combiner = Combiner(lhs: seq<TslExpr>, rhs: seq<TslExpr>, result: seq<TslExpr>,
                               identity: seq<TslExpr>)

  /** What an operation declares about its i-th output. */
  datatype OutputSig = OutputSig(dtype: DType, shape: seq<int>, unionShape: seq<int>,
                                 elemShape: seq<int>)

  /** The kind of an operation; a compute operation carries its axes and body. */
  datatype OpKind =
    | ComputeOp(axis: seq<IterVar>, reduceAxis: seq<IterVar>, body: seq<TslExpr>)
    | ScanOp
    | PlaceholderOp
    | OtherOp

  /** An operation; identity is the object. */
  class Operation {
    const name: string
    const tag: string
    const attrs: set<string>
    const kind: OpKind
    const rootIterVars: seq<IterVar>
    const outputs: seq<OutputSig>

    constructor (name: string, tag: string, attrs: set<string>, kind: OpKind,
                 rootIterVars: seq<IterVar>, outputs: seq<OutputSig>)
      ensures this.name == name && this.tag == tag && this.attrs == attrs
      ensures this.kind == kind && this.rootIterVars == rootIterVars
      ensures this.outputs == outputs
    {
      this.name := name;
      this.tag := tag;
      this.attrs := attrs;
      this.kind := kind;
      this.rootIterVars := rootIterVars;
      this.outputs := outputs;
    }
  }

  /** The attribute that marks an operation as a TSL operation. */
  const TslOpAttr: string := "TslOp"

  /**
   * A tensor: one output of an operation. The four read/write shapes are only set
   * for the outputs of TSL operations and are empty otherwise.
   */
  datatype Tensor = Tensor(op: Operation, valueIndex: nat, dtype: DType, shape: seq<int>,
                           writeUShape: seq<int>, writeEShape: seq<int>,
                           readUShape: seq<int>, readEShape: seq<int>)
  {
    function NDim(): nat { |shape| }
  }
}
