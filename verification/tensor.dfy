/**
 * Compound-index construction on tensors (src/te/tensor.cc): axis constructors, the two
 * TSL read constructors and their rank checks, the conversion of nested variable lists
 * and of plain indices into compound indices, the name hint of a tensor, and the
 * output tensors of an operation with their TSL read and write shapes.
 */
module TensorOps {
  import opened Wrappers
  import opened Ir
  import opened CIndexAlgebra

  /** Fatal conditions of the tensor helpers. */
  datatype TensorError =
    | NotTslOp        // compound indexing on a tensor whose operation is not a TSL operation
    | NDimMismatch    // an index count different from a non-zero rank
    | OutputIndex     // an output index past the operation's outputs

  /** A thread axis: a thread-index iteration variable whose variable and tag are the tag. */
  method ThreadAxis(dom: Range, tag: string) returns (iv: IterVar)
    ensures fresh(iv) && fresh(iv.v)
    ensures iv.dom == Some(dom) && iv.iterType == ThreadIndex && iv.threadTag == tag
    ensures iv.v.name == tag && iv.v.dtype == Int32()
  {
    var v := new Var(tag, Int32());
    iv := new IterVar(Some(dom), v, ThreadIndex, tag);
  }

  /** A reduction axis: a commutative-reduce iteration variable with no thread tag. */
  method ReduceAxis(dom: Range, name: string) returns (iv: IterVar)
    ensures fresh(iv) && fresh(iv.v)
    ensures iv.dom == Some(dom) && iv.iterType == CommReduce && iv.threadTag == ""
    ensures iv.v.name == name && iv.v.dtype == Int32()
  {
    var v := new Var(name, Int32());
    iv := new IterVar(Some(dom), v, CommReduce, "");
  }

  /** The rank check of a read: a rank of zero accepts any index count. */
  predicate RankAccepts(t: Tensor, n: nat) { t.NDim() == 0 || t.NDim() == n }

  /**
   * A TSL read of `t` at compound indices `ci` (new node `nid`): only for outputs of TSL
   * operations, and with one compound index per dimension unless the rank is zero.
   */
  function TslPload(t: Tensor, ci: CIndices, nid: nat): (r: Result<TslExpr, TensorError>)
    ensures r.Ok? <==> TslOpAttr in t.op.attrs && RankAccepts(t, |ci|)
    ensures TslOpAttr !in t.op.attrs ==> r == Err(NotTslOp)
    ensures r.Ok? ==> r.value.ProducerLoad? && r.value.producer == t && r.value.cIndices == ci
                      && r.value.dtype == t.dtype && r.value.nid == nid
  {
    if TslOpAttr !in t.op.attrs then Err(NotTslOp)
    else if !RankAccepts(t, |ci|) then Err(NDimMismatch)
    else Ok(ProducerLoad(nid, t.dtype, t, ci))
  }

  /** Nested variable lists as compound indices, keeping both levels of structure. */
  function VarsToCIndices(vs: seq<seq<Var>>): (r: CIndices)
  {
    seq(|vs|, i requires 0 <= i < |vs| => seq(|vs[i]|, j requires 0 <= j < |vs[i]| => VarTerm(vs[i][j])))
  }

  /** The variables of compound indices made only of variable terms. */
  function CIndicesToVars(ci: CIndices): (r: Option<seq<seq<Var>>>)
    ensures r.Some? ==> |r.value| == |ci|
  {
    if forall i, j :: 0 <= i < |ci| && 0 <= j < |ci[i]| ==> ci[i][j].VarTerm? then
      Some(seq(|ci|, i requires 0 <= i < |ci| => seq(|ci[i]|, j requires 0 <= j < |ci[i]| => ci[i][j].v)))
    else None
  }

  /** Converting nested variables to compound indices keeps every variable in its place. */
  lemma VarsRoundTrip(vs: seq<seq<Var>>)
    ensures CIndicesToVars(VarsToCIndices(vs)) == Some(vs)
  {
    var ci := VarsToCIndices(vs);
    var back := CIndicesToVars(ci);
    assert back.Some?;
    assert |back.value| == |vs|;
    forall i | 0 <= i < |vs| ensures back.value[i] == vs[i] {
      assert |back.value[i]| == |vs[i]|;
      forall j | 0 <= j < |vs[i]| ensures back.value[i][j] == vs[i][j] {
        assert ci[i][j] == VarTerm(vs[i][j]);
      }
    }
    assert back.value == vs;
  }

  /** The nested-variable read: each inner list converted in turn, then a TSL read. */
  method PloadVars(t: Tensor, vs: seq<seq<Var>>, nid: nat) returns (r: Result<TslExpr, TensorError>)
    ensures r == TslPload(t, VarsToCIndices(vs), nid)
  {
    var ci: CIndices := [];
    var i := 0;
    while i < |vs|
      invariant 0 <= i <= |vs|
      invariant ci == VarsToCIndices(vs[..i])
    {
      var c: CIndex := [];
      var j := 0;
      while j < |vs[i]|
        invariant 0 <= j <= |vs[i]|
        invariant c == seq(j, k requires 0 <= k < j => VarTerm(vs[i][k]))
      {
        c := c + [VarTerm(vs[i][j])];
        j := j + 1;
      }
      ci := ci + [c];
      i := i + 1;
      assert vs[..i] == vs[..i - 1] + [vs[i - 1]];
    }
    assert vs[..i] == vs;
    r := TslPload(t, ci, nid);
  }

  /** One pure compound index per plain index, in order. */
  function PureCIndices(indices: seq<Term>): (r: CIndices)
  {
    seq(|indices|, i requires 0 <= i < |indices| => [indices[i]])
  }

  /** The single terms of pure compound indices, or `None` when one is not pure. */
  function Heads(ci: CIndices): (r: Option<seq<Term>>)
  {
    if forall i :: 0 <= i < |ci| ==> IsPure(ci[i]) then Some(seq(|ci|, i requires 0 <= i < |ci| => ci[i][0]))
    else None
  }

  /** Plain indices become pure compound indices, and nothing else: reading them back gives the indices. */
  lemma PureRoundTrip(indices: seq<Term>)
    ensures |PureCIndices(indices)| == |indices|
    ensures forall i :: 0 <= i < |indices| ==> IsPure(PureCIndices(indices)[i])
    ensures Heads(PureCIndices(indices)) == Some(indices)
  {
    var h := Heads(PureCIndices(indices));
    assert h.Some?;
    assert h.value == indices;
  }

  /**
   * A TSL read at plain indices: the rank check, then one pure compound index per index.
   * This constructor does not check the TSL attribute.
   */
  method TslPLoad(t: Tensor, indices: seq<Term>, nid: nat) returns (r: Result<TslExpr, TensorError>)
    ensures r.Ok? <==> RankAccepts(t, |indices|)
    ensures r.Ok? ==> r.value == ProducerLoad(nid, t.dtype, t, PureCIndices(indices))
  {
    if !RankAccepts(t, |indices|) {
      return Err(NDimMismatch);
    }
    var ci: CIndices := [];
    var i := 0;
    while i < |indices|
      invariant 0 <= i <= |indices|
      invariant ci == PureCIndices(indices[..i])
    {
      ci := ci + [[indices[i]]];
      i := i + 1;
    }
    assert indices[..i] == indices;
    return Ok(ProducerLoad(nid, t.dtype, t, ci));
  }

  /** The decimal digits of `n`, most significant first. */
  function NatToString(n: nat): (s: string)
    ensures |s| > 0 && forall k :: 0 <= k < |s| ==> '0' <= s[k] <= '9'
    decreases n
  {
    if n < 10 then [Digit(n)] else NatToString(n / 10) + [Digit(n % 10)]
  }

  /** The character of a decimal digit. */
  function Digit(d: nat): (c: char)
    requires d < 10
    ensures '0' <= c <= '9' && c as int - '0' as int == d
  {
    (d + '0' as int) as char
  }

  /** The value of a string of decimal digits. */
  function DecimalValue(s: string): nat
    requires forall k :: 0 <= k < |s| ==> '0' <= s[k] <= '9'
  {
    if |s| == 0 then 0
    else DecimalValue(s[..|s| - 1]) * 10 + (s[|s| - 1] as int - '0' as int)
  }

  /** Reading the decimal string of `n` gives `n` back. */
  lemma {:induction false} DecimalRoundTrip(n: nat)
    ensures DecimalValue(NatToString(n)) == n
    decreases n
  {
    var s := NatToString(n);
    if n >= 10 {
      DecimalRoundTrip(n / 10);
      assert s[..|s| - 1] == NatToString(n / 10);
    }
  }

  /** The name hint of a tensor: the operation's name, tagged with the output index when there are several outputs. */
  function GetNameHint(t: Tensor): (s: string)
  {
    if |t.op.outputs| == 1 then t.op.name else t.op.name + ".v" + NatToString(t.valueIndex)
  }

  /**
   * A single-output operation's tensor is named after the operation; the tensors of a
   * multi-output operation have pairwise different names.
   */
  lemma NameHintSpec(t1: Tensor, t2: Tensor)
    requires t1.op == t2.op
    ensures |t1.op.outputs| == 1 ==> GetNameHint(t1) == t1.op.name
    ensures |t1.op.outputs| != 1 && t1.valueIndex != t2.valueIndex ==> GetNameHint(t1) != GetNameHint(t2)
  {
    if |t1.op.outputs| != 1 && t1.valueIndex != t2.valueIndex {
      var p := t1.op.name + ".v";
      if GetNameHint(t1) == GetNameHint(t2) {
        var s1, s2 := NatToString(t1.valueIndex), NatToString(t2.valueIndex);
        assert p + s1 == p + s2;
        assert s1 == (p + s1)[|p|..];
        assert s1 == s2;
        DecimalRoundTrip(t1.valueIndex);
        DecimalRoundTrip(t2.valueIndex);
      }
    }
  }

  /** `n` copies of 1. */
  function Ones(n: nat): (r: seq<int>)
    ensures |r| == n && forall k :: 0 <= k < n ==> r[k] == 1
  {
    seq(n, _ => 1)
  }

  /**
   * The `i`-th output tensor of `op`. The read and write shapes are set only for TSL
   * operations: writes use the declared union and element shapes, a read covers one
   * union tile whose element shape is the whole output.
   */
  function Output(op: Operation, i: nat): (r: Result<Tensor, TensorError>)
    ensures r.Ok? <==> i < |op.outputs|
    ensures r.Ok? ==> r.value.op == op && r.value.valueIndex == i
                      && r.value.dtype == op.outputs[i].dtype && r.value.shape == op.outputs[i].shape
    ensures r.Ok? && TslOpAttr in op.attrs ==>
      r.value.writeUShape == op.outputs[i].unionShape && r.value.writeEShape == op.outputs[i].elemShape
      && |r.value.readUShape| == r.value.NDim() && (forall k :: 0 <= k < r.value.NDim() ==> r.value.readUShape[k] == 1)
      && r.value.readEShape == r.value.shape
    ensures r.Ok? && TslOpAttr !in op.attrs ==>
      r.value.writeUShape == [] && r.value.writeEShape == [] && r.value.readUShape == [] && r.value.readEShape == []
  {
    if i >= |op.outputs| then Err(OutputIndex)
    else
      var sig := op.outputs[i];
      if TslOpAttr in op.attrs then
        Ok(Tensor(op, i, sig.dtype, sig.shape, sig.unionShape, sig.elemShape, Ones(|sig.shape|), sig.shape))
      else
        Ok(Tensor(op, i, sig.dtype, sig.shape, [], [], [], []))
  }

  /** A read of an output tensor by its own number of indices always passes the rank check. */
  lemma OutputReadable(op: Operation, i: nat, ci: CIndices, nid: nat)
    requires Output(op, i).Ok? && TslOpAttr in op.attrs && |ci| == |op.outputs[i].shape|
    ensures TslPload(Output(op, i).value, ci, nid).Ok?
  {
  }
}
