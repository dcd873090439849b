/**
 * The iteration-space editor of a schedule stage (src/te/schedule/schedule_lang.cc).
 * A stage owns three ordered lists that its primitives edit in place: the loop
 * variables still to be emitted (`leafIterVars`), every variable it ever introduced
 * (`allIterVars`) and the relations between them (`relations`). Attributes per loop
 * variable, the attachment state and the link to the enclosing group live on the
 * stage too. Every fatal check of the C++ code is an error result here.
 */
module StageSched {
  import opened Wrappers
  import opened Ir
  import opened Positions
  import TensorOps

  /** The fatal conditions of the stage and schedule primitives. */
  datatype StageError =
    | CannotSplit            // split of a variable that is not data-parallel, reduce or ordered
    | AlreadySplit           // the variable was a leaf once but has been replaced
    | NotInSchedule          // the variable was never part of this stage
    | NotInt                 // a fused variable whose type is not an integer
    | NotScalar              // a fused variable whose type has several lanes
    | CannotFuse             // fuse of a variable that is not data-parallel, reduce or ordered
    | NotConsecutive         // fuse of two leaves that are not neighbours
    | CannotReorder          // reorder of a variable that is not data-parallel, reduce or thread
    | RepeatedAxis           // reorder naming one variable twice
    | CannotBind             // bind of a variable that is not data-parallel or reduce
    | NotThreadAxis          // bind to a variable that is not a thread index
    | CannotVectorize        // vectorize of a variable of a kind that cannot be vectorized
    | NotScanOp              // env_threads on a stage whose operation is not a scan
    | EnvThreadsSet          // env_threads on a stage that already has them
    | OutputDoubleBuffer     // double buffering of an output stage
    | ScanUpdateAttach       // compute_at / compute_inline / compute_root on a scan update
    | OutsideGroup           // compute_at to a stage outside this stage's group
    | AxisNotInParent        // compute_at to a variable that is not a leaf of the parent
    | NotComputeOp           // decompose of a stage whose operation is not a compute operation
    | NotTslOp               // decompose of a compute operation without the TSL attribute
    | NoDecompLevel          // decompose of a stage without a level-0 decomposition entry
    | NoOutput               // an operation without an output 0
    | FactorCount            // a factor list whose length differs from the output rank
    | FactorNotSmaller       // a factor not strictly below the current level's factor
    | NonEven                // a factor that does not divide the current level's factor
    | OutOfRange             // an access past the end of a list
    | ReduceNotSupported     // decompose of a stage with a reduce variable at the top level
    | LeftVarMissing         // a top-level left variable that is no longer a leaf
    | RelationMissing        // a level-0 split relation that is no longer in the stage
    | AxisCount              // new axes whose number differs from the level-0 relations
    | GroupIntersects        // a group that would cut through an existing group
    | StageNotFound          // a stage reference outside the schedule
    | CacheMismatch          // a stage without an operation, or two stages of one operation

  /** A relation between iteration variables, recorded when a primitive replaces leaves. */
  datatype Relation =
    | SplitRelation(parent: IterVar, outer: IterVar, inner: IterVar, factor: Option<int>, nparts: Option<int>)
    | FuseRelation(outer: IterVar, inner: IterVar, fused: IterVar)
    | RebaseRelation(parent: IterVar, rebased: IterVar)
    | SingletonRelation(iter: IterVar)

  /** How a stage is attached to the loop nest. */
  datatype AttachType = GroupRoot | Inline | InlinedAlready | Scope | ScanUpdate

  /** The scheduling attributes of one loop variable. */
  datatype IterVarAttr = IterVarAttr(
    iterType: IterVarType, bindThread: Option<IterVar>, tensorIntrin: Option<nat>,
    pragmaKeys: seq<string>, pragmaValues: seq<PrimExpr>,
    prefetchData: seq<Tensor>, prefetchOffset: seq<PrimExpr>,
    dimAlignFactor: int, dimAlignOffset: int)

  /** The attributes of a variable that has none yet. */
  function DefaultAttr(): IterVarAttr
  {
    IterVarAttr(DataPar, None, None, [], [], [], [], 0, 0)
  }

  /** Pragma keys pair with pragma values, prefetched tensors with their offsets. */
  predicate AttrAligned(a: IterVarAttr)
  {
    |a.pragmaKeys| == |a.pragmaValues| && |a.prefetchData| == |a.prefetchOffset|
  }

  /** One attribute update, as the setters of the stage apply it. */
  datatype AttrUpdate =
    | SetIterType(t: IterVarType)
    | SetTensorIntrin(intrin: nat)
    | AddPragma(key: string, value: PrimExpr)
    | SetAlign(alignFactor: int, alignOffset: int)
    | SetBindThread(thread: IterVar)
    | AddPrefetch(tensor: Tensor, offset: PrimExpr)

  /** The attributes after an update: only the fields the update names change. */
  function ApplyUpdate(a: IterVarAttr, u: AttrUpdate): (r: IterVarAttr)
    ensures AttrAligned(a) ==> AttrAligned(r)
    ensures u.SetIterType? ==> r == a.(iterType := u.t)
    ensures u.SetTensorIntrin? ==> r == a.(iterType := Tensorized, tensorIntrin := Some(u.intrin))
    ensures u.AddPragma? ==> r.pragmaKeys == a.pragmaKeys + [u.key] && r.pragmaValues == a.pragmaValues + [u.value]
                             && r.(pragmaKeys := a.pragmaKeys, pragmaValues := a.pragmaValues) == a
    ensures u.AddPrefetch? ==> r.prefetchData == a.prefetchData + [u.tensor] && r.prefetchOffset == a.prefetchOffset + [u.offset]
                               && r.(prefetchData := a.prefetchData, prefetchOffset := a.prefetchOffset) == a
  {
    match u
    case SetIterType(t) => a.(iterType := t)
    case SetTensorIntrin(f) => a.(iterType := Tensorized, tensorIntrin := Some(f))
    case AddPragma(k, v) => a.(pragmaKeys := a.pragmaKeys + [k], pragmaValues := a.pragmaValues + [v])
    case SetAlign(f, o) => a.(dimAlignFactor := f, dimAlignOffset := o)
    case SetBindThread(t) => a.(bindThread := Some(t))
    case AddPrefetch(t, o) => a.(prefetchData := a.prefetchData + [t], prefetchOffset := a.prefetchOffset + [o])
  }

  /** The attributes recorded for `v`, or the defaults. */
  function AttrOf(m: map<IterVar, IterVarAttr>, v: IterVar): IterVarAttr
  {
    if v in m then m[v] else DefaultAttr()
  }

  /**
   * One level of the stage's own decomposition stack: the tile factors of the level,
   * its depth, the left and right variables created for each dimension, and the split
   * relations that introduced them.
   */
  datatype DecompLevel = DecompLevel(factors: seq<int>, level: int, leftIvars: seq<IterVar>,
                                     rightIvars: seq<IterVar>, splitRelations: seq<Relation>)

  /** The leaf list has no repetitions, nor has the list of all variables, and every leaf is one of them. */
  predicate SpaceOk(all: seq<IterVar>, leaf: seq<IterVar>)
  {
    Distinct(leaf) && Distinct(all) && forall v :: v in leaf ==> v in all
  }

  // ---------------------------------------------------------------- searches

  /**
   * The position of `v` among the leaves, or why it is not a leaf: a variable that
   * occurs in `all` has been split or fused away, any other one is foreign.
   */
  function LeafPos(all: seq<IterVar>, leaf: seq<IterVar>, v: IterVar): (r: Result<nat, StageError>)
    ensures r.Ok? <==> v in leaf
    ensures r.Ok? ==> r.value == FirstIndex(leaf, v) && r.value < |leaf| && leaf[r.value] == v
    ensures r.Err? ==> r.error == (if v in all then AlreadySplit else NotInSchedule)
  {
    var pos := FirstIndex(leaf, v);
    if pos < |leaf| then Ok(pos)
    else if FirstIndex(all, v) < |all| then Err(AlreadySplit)
    else Err(NotInSchedule)
  }

  /** The leaf position of `v`, failing like `LeafPos`. */
  method FindLeafVar(all: seq<IterVar>, leaf: seq<IterVar>, v: IterVar) returns (r: Result<nat, StageError>)
    ensures r == LeafPos(all, leaf, v)
  {
    var pos := FindNodeRef(leaf, v);
    if pos < |leaf| {
      return Ok(pos);
    }
    var apos := FindNodeRef(all, v);
    if apos < |all| {
      return Err(AlreadySplit);
    }
    return Err(NotInSchedule);
  }

  // ---------------------------------------------------------------- data types

  /** A scalar integer type. */
  predicate IntScalar(d: DType) { d.code == Int && d.lanes == 1 }

  /**
   * The integer type wide enough for `dtypes[i..]` and `maxBits`: fails on the first
   * type that is not an integer or not a scalar.
   */
  function MatchFrom(dtypes: seq<DType>, i: nat, maxBits: int): (r: Result<DType, StageError>)
    requires i <= |dtypes|
    ensures r.Ok? <==> forall k :: i <= k < |dtypes| ==> IntScalar(dtypes[k])
    ensures r.Ok? ==> IntScalar(r.value) && r.value.bits >= maxBits
    ensures r.Ok? ==> forall k :: i <= k < |dtypes| ==> dtypes[k].bits <= r.value.bits
    ensures r.Ok? ==> r.value.bits == maxBits || exists k :: i <= k < |dtypes| && dtypes[k].bits == r.value.bits
    ensures r.Err? ==> r.error == NotInt || r.error == NotScalar
    decreases |dtypes| - i
  {
    if i == |dtypes| then Ok(DType(Int, maxBits, 1))
    else if dtypes[i].code != Int then Err(NotInt)
    else if dtypes[i].lanes != 1 then Err(NotScalar)
    else MatchFrom(dtypes, i + 1, if dtypes[i].bits > maxBits then dtypes[i].bits else maxBits)
  }

  /** The common type of fused loop variables: an integer of the largest width, starting from -1 bits. */
  method MatchDataType(dtypes: seq<DType>) returns (r: Result<DType, StageError>)
    ensures r == MatchFrom(dtypes, 0, -1)
  {
    var maxBits := -1;
    var i := 0;
    while i < |dtypes|
      invariant 0 <= i <= |dtypes|
      invariant MatchFrom(dtypes, i, maxBits) == MatchFrom(dtypes, 0, -1)
    {
      if dtypes[i].code != Int {
        return Err(NotInt);
      }
      if dtypes[i].lanes != 1 {
        return Err(NotScalar);
      }
      if dtypes[i].bits > maxBits {
        maxBits := dtypes[i].bits;
      }
      i := i + 1;
    }
    return Ok(DType(Int, maxBits, 1));
  }

  // ---------------------------------------------------------------- leaf-list edits

  /** The variables among the first `n` of `vs` that are not opaque, in order. */
  function NonOpaqueUpTo(vs: seq<IterVar>, n: nat): (r: seq<IterVar>)
    requires n <= |vs|
    ensures |r| <= n
  {
    if n == 0 then []
    else NonOpaqueUpTo(vs, n - 1) + (if vs[n - 1].iterType != Opaque then [vs[n - 1]] else [])
  }

  /** The variables of `vs` that are not opaque, in order. */
  function NonOpaque(vs: seq<IterVar>): (r: seq<IterVar>)
    ensures |r| <= |vs|
  {
    NonOpaqueUpTo(vs, |vs|)
  }

  /** The filter keeps exactly the non-opaque variables, and a list without repetitions free of them. */
  lemma {:induction false} NonOpaqueElems(vs: seq<IterVar>, n: nat)
    requires n <= |vs|
    ensures forall v :: v in NonOpaqueUpTo(vs, n) <==> v in vs[..n] && v.iterType != Opaque
    ensures Distinct(vs) ==> Distinct(NonOpaqueUpTo(vs, n))
  {
    if n > 0 {
      NonOpaqueElems(vs, n - 1);
      assert vs[..n] == vs[..n - 1] + [vs[n - 1]];
      if Distinct(vs) {
        assert vs[n - 1] !in vs[..n - 1];
      }
    }
  }

  /** The stage's first leaves: the root variables without the opaque ones. */
  method CleanLeaves(vs: seq<IterVar>) returns (clean: seq<IterVar>)
    ensures clean == NonOpaque(vs)
  {
    clean := [];
    var i := 0;
    while i < |vs|
      invariant 0 <= i <= |vs|
      invariant clean == NonOpaqueUpTo(vs, i)
    {
      if vs[i].iterType != Opaque {
        clean := clean + [vs[i]];
      }
      i := i + 1;
    }
  }

  /** The leaf slot `pos` replaced by `outer` then `inner`. */
  function SplitLeaves(leaf: seq<IterVar>, pos: nat, outer: IterVar, inner: IterVar): (r: seq<IterVar>)
    requires pos < |leaf|
    ensures |r| == |leaf| + 1
    ensures r[..pos] == leaf[..pos] && r[pos] == outer && r[pos + 1] == inner && r[pos + 2..] == leaf[pos + 1..]
  {
    leaf[..pos] + [outer, inner] + leaf[pos + 1..]
  }

  /** Splitting a leaf into two new variables keeps the leaf and variable lists well formed. */
  lemma SplitKeepsSpace(all: seq<IterVar>, leaf: seq<IterVar>, pos: nat, outer: IterVar, inner: IterVar)
    requires SpaceOk(all, leaf) && pos < |leaf|
    requires outer != inner && outer !in all && inner !in all
    ensures SpaceOk(all + [outer, inner], SplitLeaves(leaf, pos, outer, inner))
    ensures leaf[pos] !in SplitLeaves(leaf, pos, outer, inner)
  {
    var r := SplitLeaves(leaf, pos, outer, inner);
    forall i, j | 0 <= i < j < |r| ensures r[i] != r[j] {
      var a := if i < pos then i else if i <= pos + 1 then -1 else i - 1;
      var b := if j < pos then j else if j <= pos + 1 then -1 else j - 1;
      if a >= 0 && b >= 0 {
        assert r[i] == leaf[a] && r[j] == leaf[b] && a < b;
      } else if a >= 0 {
        assert r[i] == leaf[a] && r[i] in all;
      } else if b >= 0 {
        assert r[j] == leaf[b] && r[j] in all;
      }
    }
    forall v | v in r ensures v in all + [outer, inner] {
      var i :| 0 <= i < |r| && r[i] == v;
      if i < pos {
        assert v == leaf[i];
      } else if pos + 1 < i {
        assert v == leaf[i - 1];
      }
    }
    forall i | 0 <= i < |r| ensures r[i] != leaf[pos] {
      if i < pos {
        assert r[i] == leaf[i];
      } else if pos + 1 < i {
        assert r[i] == leaf[i - 1];
      } else {
        assert leaf[pos] in all;
      }
    }
  }

  /** The two leaf slots `p` and `p + 1` replaced by `fused`. */
  function FuseLeaves(leaf: seq<IterVar>, p: nat, fused: IterVar): (r: seq<IterVar>)
    requires p + 1 < |leaf|
    ensures |r| == |leaf| - 1
    ensures forall k :: 0 <= k < p ==> r[k] == leaf[k]
    ensures r[p] == fused
    ensures forall k :: p + 1 < k < |leaf| ==> r[k - 1] == leaf[k]
  {
    leaf[..p] + [fused] + leaf[p + 2..]
  }

  /** A fuse brings no leaf in but the fused variable. */
  lemma FuseLeavesFrom(leaf: seq<IterVar>, p: nat, fused: IterVar)
    requires p + 1 < |leaf|
    ensures forall v :: v in FuseLeaves(leaf, p, fused) ==> v == fused || v in leaf
  {
    forall v | v in FuseLeaves(leaf, p, fused) ensures v == fused || v in leaf {
      var r := FuseLeaves(leaf, p, fused);
      var i :| 0 <= i < |r| && r[i] == v;
      if i < p {
        assert v == leaf[i];
      } else if p < i {
        assert v == leaf[i + 1];
      }
    }
  }

  /** Fusing two leaves into a new variable keeps the lists well formed and drops both leaves. */
  lemma FuseKeepsSpace(all: seq<IterVar>, leaf: seq<IterVar>, p: nat, fused: IterVar)
    requires SpaceOk(all, leaf) && p + 1 < |leaf| && fused !in all
    ensures SpaceOk(all + [fused], FuseLeaves(leaf, p, fused))
    ensures forall v :: v in FuseLeaves(leaf, p, fused) <==> v == fused || (v in leaf && v != leaf[p] && v != leaf[p + 1])
  {
    var r := FuseLeaves(leaf, p, fused);
    forall i, j | 0 <= i < j < |r| ensures r[i] != r[j] {
      var a := if i < p then i else if i == p then -1 else i + 1;
      var b := if j < p then j else if j == p then -1 else j + 1;
      if a >= 0 && b >= 0 {
        assert r[i] == leaf[a] && r[j] == leaf[b] && a < b;
      } else if a >= 0 {
        assert r[i] == leaf[a] && r[i] in all;
      } else if b >= 0 {
        assert r[j] == leaf[b] && r[j] in all;
      }
    }
    forall v | v in r ensures v == fused || (v in leaf && v != leaf[p] && v != leaf[p + 1]) {
      var i :| 0 <= i < |r| && r[i] == v;
      if i < p {
        assert v == leaf[i];
      } else if p < i {
        assert v == leaf[i + 1];
      }
    }
    forall v | v in leaf && v != leaf[p] && v != leaf[p + 1] ensures v in r {
      var i :| 0 <= i < |leaf| && leaf[i] == v;
      if i < p {
        assert r[i] == v;
      } else {
        assert r[i - 1] == v;
      }
    }
  }

  // ---------------------------------------------------------------- checks of the primitives

  /** The kinds a split or a fuse accepts. */
  predicate Splittable(t: IterVarType) { t == DataPar || t == CommReduce || t == Ordered }

  /** The kinds a reorder accepts. */
  predicate Reorderable(t: IterVarType) { t == DataPar || t == CommReduce || t == ThreadIndex }

  /** The kinds a vectorize accepts. */
  predicate Vectorizable(t: IterVarType)
  {
    t == DataPar || t == Opaque || t == Unrolled || t == Vectorized || t == Tensorized || t == Parallelized
  }

  /** Where a split of `parent` happens, or why it cannot. */
  function SplitCheck(all: seq<IterVar>, leaf: seq<IterVar>, parent: IterVar): (r: Result<nat, StageError>)
    ensures r.Ok? <==> Splittable(parent.iterType) && parent in leaf
    ensures r.Ok? ==> r.value == FirstIndex(leaf, parent)
    ensures !Splittable(parent.iterType) ==> r == Err(CannotSplit)
  {
    if !Splittable(parent.iterType) then Err(CannotSplit) else LeafPos(all, leaf, parent)
  }

  /** The name of a fused variable, made from the arguments as given. */
  function FusedName(outer: IterVar, inner: IterVar): string
  {
    outer.v.name + "." + inner.v.name + ".fused"
  }

  /**
   * The lower of the two neighbouring leaf slots that a fuse of `outer` and `inner`
   * replaces, or why it cannot: the kind checks, the common integer type, then the two
   * leaf searches (`inner` first) and the adjacency check, in either order.
   */
  function FuseCheck(all: seq<IterVar>, leaf: seq<IterVar>, outer: IterVar, inner: IterVar): (r: Result<nat, StageError>)
    ensures r.Ok? <==> Splittable(outer.iterType) && Splittable(inner.iterType)
                       && MatchFrom([inner.v.dtype, outer.v.dtype], 0, -1).Ok?
                       && outer in leaf && inner in leaf
                       && (FirstIndex(leaf, inner) == FirstIndex(leaf, outer) + 1
                           || FirstIndex(leaf, outer) == FirstIndex(leaf, inner) + 1)
    ensures r.Ok? ==> r.value + 1 < |leaf|
                      && ((leaf[r.value] == outer && leaf[r.value + 1] == inner)
                          || (leaf[r.value] == inner && leaf[r.value + 1] == outer))
  {
    if !Splittable(outer.iterType) || !Splittable(inner.iterType) then Err(CannotFuse)
    else
      var m := MatchFrom([inner.v.dtype, outer.v.dtype], 0, -1);
      if m.Err? then Err(m.error)
      else
        var pi := LeafPos(all, leaf, inner);
        if pi.Err? then Err(pi.error)
        else
          var po := LeafPos(all, leaf, outer);
          if po.Err? then Err(po.error)
          else if pi.value + 1 == po.value then Ok(pi.value)
          else if pi.value == po.value + 1 then Ok(po.value)
          else Err(NotConsecutive)
  }

  /**
   * The leaf searches of `fuse` once the kinds and the integer type are accepted:
   * `inner` first, then `outer`, then the adjacency check in either order.
   */
  method FuseSlot(all: seq<IterVar>, leaf: seq<IterVar>, outer: IterVar, inner: IterVar)
    returns (r: Result<nat, StageError>)
    requires Splittable(outer.iterType) && Splittable(inner.iterType)
    requires MatchFrom([inner.v.dtype, outer.v.dtype], 0, -1).Ok?
    ensures r == FuseCheck(all, leaf, outer, inner)
  {
    var pi := FindLeafVar(all, leaf, inner);
    if pi.Err? {
      return Err(pi.error);
    }
    var po := FindLeafVar(all, leaf, outer);
    if po.Err? {
      return Err(po.error);
    }
    var posInner, posOuter := pi.value, po.value;
    if posInner + 1 == posOuter {
      posInner, posOuter := posOuter, posInner;
    }
    if posInner != posOuter + 1 {
      return Err(NotConsecutive);
    }
    return Ok(posOuter);
  }

  /**
   * One step of a multi-axis fuse: the variable fused so far, `acc`, and the next axis
   * pass the fuse checks on lists `all` and `leaf`; `fused` is named after the pair as
   * given, has their larger kind and wider integer type and no domain; it replaces the
   * two neighbouring slots, joins the variable list, and `rel` records the pair in leaf
   * order.
   */
  ghost predicate FuseStep(all: seq<IterVar>, leaf: seq<IterVar>, acc: IterVar, axis: IterVar,
                           fused: IterVar, all': seq<IterVar>, leaf': seq<IterVar>, rel: Relation)
  {
    var c := FuseCheck(all, leaf, acc, axis);
    c.Ok?
    && fused.v.name == FusedName(acc, axis)
    && fused.v.dtype == MatchFrom([axis.v.dtype, acc.v.dtype], 0, -1).value
    && fused.iterType == MaxType(acc.iterType, axis.iterType)
    && fused.dom == None && fused.threadTag == ""
    && leaf' == FuseLeaves(leaf, c.value, fused)
    && all' == all + [fused]
    && rel == FuseRelation(leaf[c.value], leaf[c.value + 1], fused)
  }

  /**
   * The first `|fs| - 1` steps of `fuse(axes)`: `fs[0]` is the first axis and each
   * `fs[k + 1]` is the fuse step of `fs[k]` with `axes[k + 1]`, taking the lists from
   * `alls[k]`, `leaves[k]` to `alls[k + 1]`, `leaves[k + 1]` and recording `rels[k]`.
   */
  ghost predicate FuseChain(axes: seq<IterVar>, fs: seq<IterVar>, alls: seq<seq<IterVar>>,
                            leaves: seq<seq<IterVar>>, rels: seq<Relation>)
  {
    1 <= |fs| <= |axes| && |alls| == |fs| && |leaves| == |fs| && |rels| == |fs| - 1
    && fs[0] == axes[0]
    && forall k :: 0 <= k < |rels| ==>
         FuseStep(alls[k], leaves[k], fs[k], axes[k + 1], fs[k + 1], alls[k + 1], leaves[k + 1], rels[k])
  }

  /**
   * After step `i` of a multi-axis fuse, none of `axes[0..i]` is a leaf: the step
   * removes `fused` and `axes[i]`, and brings in only the new variable `f`.
   */
  lemma AxesLeave(axes: seq<IterVar>, i: nat, fused: IterVar, before: seq<IterVar>, after: seq<IterVar>, f: IterVar)
    requires 1 <= i < |axes| && (i == 1 ==> fused == axes[0])
    requires i >= 2 ==> forall k :: 0 <= k < i ==> axes[k] !in before
    requires fused !in after && axes[i] !in after && forall v :: v in after ==> v == f || v in before
    requires forall k :: 0 <= k < |axes| ==> axes[k] != f
    ensures forall k :: 0 <= k <= i ==> axes[k] !in after
  {
  }

  /** A chain extended by one more step is a chain. */
  lemma ChainSnoc(axes: seq<IterVar>, fs: seq<IterVar>, alls: seq<seq<IterVar>>,
                  leaves: seq<seq<IterVar>>, rels: seq<Relation>,
                  f: IterVar, all': seq<IterVar>, leaf': seq<IterVar>, rel: Relation)
    requires FuseChain(axes, fs, alls, leaves, rels) && |fs| < |axes|
    requires FuseStep(alls[|fs| - 1], leaves[|fs| - 1], fs[|fs| - 1], axes[|fs|], f, all', leaf', rel)
    ensures FuseChain(axes, fs + [f], alls + [all'], leaves + [leaf'], rels + [rel])
  {
    var fs', alls', leaves', rels' := fs + [f], alls + [all'], leaves + [leaf'], rels + [rel];
    forall k | 0 <= k < |rels'|
      ensures FuseStep(alls'[k], leaves'[k], fs'[k], axes[k + 1], fs'[k + 1], alls'[k + 1], leaves'[k + 1], rels'[k])
    {
      if k < |rels| {
        assert FuseStep(alls[k], leaves[k], fs[k], axes[k + 1], fs[k + 1], alls[k + 1], leaves[k + 1], rels[k]);
      }
    }
  }

  /**
   * The checks of a reorder from `order[i]` on, `seen` holding the variables already
   * named: every kind must be reorderable and no variable may repeat.
   */
  function CheckOrder(order: seq<IterVar>, i: nat, seen: set<IterVar>): (r: Outcome<StageError>)
    requires i <= |order|
    ensures r.Pass? <==> (forall k :: i <= k < |order| ==> Reorderable(order[k].iterType) && order[k] !in seen)
                         && (forall a, b :: i <= a < b < |order| ==> order[a] != order[b])
    decreases |order| - i
  {
    if i == |order| then Pass
    else if !Reorderable(order[i].iterType) then Fail(CannotReorder)
    else if order[i] in seen then Fail(RepeatedAxis)
    else CheckOrder(order, i + 1, seen + {order[i]})
  }

  /** The leaf positions of `order[i..]`, failing on the first variable that is not a leaf. */
  function OrderPositions(all: seq<IterVar>, leaf: seq<IterVar>, order: seq<IterVar>, i: nat): (r: Result<seq<nat>, StageError>)
    requires i <= |order|
    ensures r.Ok? <==> forall k :: i <= k < |order| ==> order[k] in leaf
    ensures r.Ok? ==> |r.value| == |order| - i
                      && forall k :: 0 <= k < |r.value| ==> r.value[k] == FirstIndex(leaf, order[i + k])
    decreases |order| - i
  {
    if i == |order| then Ok([])
    else match LeafPos(all, leaf, order[i])
      case Err(e) => Err(e)
      case Ok(p) =>
        match OrderPositions(all, leaf, order, i + 1)
        case Err(e) => Err(e)
        case Ok(ps) => Ok([p] + ps)
  }

  /** The leaf searches succeed exactly with the first positions of the named variables. */
  lemma OrderPositionsOf(all: seq<IterVar>, leaf: seq<IterVar>, order: seq<IterVar>, ps: seq<nat>)
    requires |ps| == |order| && forall k :: 0 <= k < |order| ==> ps[k] == FirstIndex(leaf, order[k]) < |leaf|
    ensures OrderPositions(all, leaf, order, 0) == Ok(ps)
  {
    var r := OrderPositions(all, leaf, order, 0);
    assert r.Ok?;
    assert r.value == ps;
  }

  /**
   * The leaf list after `reorder(order)`: the checks, then the slots of the named
   * variables rewritten so that they hold `order` in increasing position order.
   */
  function ReorderSpec(all: seq<IterVar>, leaf: seq<IterVar>, order: seq<IterVar>): (r: Result<seq<IterVar>, StageError>)
    ensures r.Ok? <==> (forall k :: 0 <= k < |order| ==> Reorderable(order[k].iterType) && order[k] in leaf)
                       && Distinct(order)
    ensures r.Ok? ==> |r.value| == |leaf|
    ensures r.Ok? ==> forall j :: 0 <= j < |leaf| && leaf[j] !in order ==> r.value[j] == leaf[j]
  {
    var c := CheckOrder(order, 0, {});
    if c.Fail? then Err(c.error)
    else match OrderPositions(all, leaf, order, 0)
      case Err(e) => Err(e)
      case Ok(pos) =>
        var r := Reordered(leaf, Elems(pos), order);
        assert forall j :: 0 <= j < |leaf| && leaf[j] !in order ==> j !in Elems(pos) by {
          forall j | 0 <= j < |leaf| && j in Elems(pos) ensures leaf[j] in order {
            var k :| 0 <= k < |pos| && pos[k] == j;
            assert leaf[j] == order[k];
          }
        }
        Ok(r)
  }

  /** A successful reorder is the slot rewrite at the positions of the named leaves. */
  lemma ReorderSpecValue(all: seq<IterVar>, leaf: seq<IterVar>, order: seq<IterVar>)
    requires ReorderSpec(all, leaf, order).Ok?
    ensures OrderPositions(all, leaf, order, 0).Ok?
    ensures ReorderSpec(all, leaf, order).value == Reordered(leaf, Elems(OrderPositions(all, leaf, order, 0).value), order)
  {
  }

  /**
   * Reordering a leaf list without repetitions permutes it, keeps it free of
   * repetitions, and leaves the named variables in the order given, on the positions
   * they occupied.
   */
  lemma ReorderPermutes(all: seq<IterVar>, leaf: seq<IterVar>, order: seq<IterVar>)
    requires Distinct(leaf) && ReorderSpec(all, leaf, order).Ok?
    ensures var r := ReorderSpec(all, leaf, order).value;
      multiset(r) == multiset(leaf) && Distinct(r)
      && (forall a, b :: 0 <= a < b < |order| ==> FirstIndex(r, order[a]) < FirstIndex(r, order[b]))
      && (forall k :: 0 <= k < |order| ==> FirstIndex(r, order[k]) < |leaf| && leaf[FirstIndex(r, order[k])] in order)
  {
    var pos := OrderPositions(all, leaf, order, 0).value;
    ReorderSpecValue(all, leaf, order);
    assert NamedAt(leaf, pos, order);
    ReorderedPermutes(leaf, pos, order);
    ReorderedPlaces(leaf, pos, order);
  }

  /** The checks of `reorder`, in one pass over `order` with the set of variables seen. */
  method CheckOrderLoop(order: seq<IterVar>) returns (c: Outcome<StageError>)
    ensures c == CheckOrder(order, 0, {})
  {
    var seen: set<IterVar> := {};
    var i := 0;
    while i < |order|
      invariant 0 <= i <= |order|
      invariant CheckOrder(order, i, seen) == CheckOrder(order, 0, {})
    {
      if !Reorderable(order[i].iterType) {
        return Fail(CannotReorder);
      }
      if order[i] in seen {
        return Fail(RepeatedAxis);
      }
      seen := seen + {order[i]};
      i := i + 1;
    }
    return Pass;
  }

  /** The leaf position of every variable of `order`, by one leaf search each. */
  method LeafPositions(all: seq<IterVar>, leaf: seq<IterVar>, order: seq<IterVar>)
    returns (r: Result<seq<nat>, StageError>)
    ensures r == OrderPositions(all, leaf, order, 0)
  {
    var pos: seq<nat> := [];
    var i := 0;
    while i < |order|
      invariant 0 <= i <= |order|
      invariant |pos| == i && forall k :: 0 <= k < i ==> pos[k] == FirstIndex(leaf, order[k]) < |leaf|
      invariant OrderPositions(all, leaf, order, 0).Ok? ==> OrderPositions(all, leaf, order, i).Ok?
      invariant OrderPositions(all, leaf, order, 0).Err? ==>
                OrderPositions(all, leaf, order, i) == OrderPositions(all, leaf, order, 0)
    {
      var p := FindLeafVar(all, leaf, order[i]);
      if p.Err? {
        return Err(p.error);
      }
      pos := pos + [p.value];
      i := i + 1;
    }
    OrderPositionsOf(all, leaf, order, pos);
    return Ok(pos);
  }

  /**
   * The slot rewrite of `reorder`: the named leaves are collected in the order given,
   * the positions sorted, and the `k`-th smallest position receives the `k`-th leaf.
   */
  method ApplyOrder(leaf: seq<IterVar>, pos: seq<nat>, order: seq<IterVar>) returns (res: seq<IterVar>)
    requires NamedAt(leaf, pos, order) && Distinct(order)
    ensures res == Reordered(leaf, Elems(pos), order)
  {
    var temp: seq<IterVar> := [];
    var i := 0;
    while i < |pos|
      invariant 0 <= i <= |pos| && temp == order[..i]
    {
      temp := temp + [leaf[pos[i]]];
      i := i + 1;
    }
    NamedAtDistinct(leaf, pos, order);
    var sorted := SortPositions(pos);
    SameElems(sorted, pos);
    ReorderedAtSorted(leaf, pos, order, sorted);
    res := WriteSlots(leaf, sorted, temp);
    ReorderedBySlots(leaf, pos, order, sorted, res);
  }

  /** Writes `values[k]` into slot `slots[k]` of `s`, for each `k` in turn. */
  method WriteSlots(s: seq<IterVar>, slots: seq<nat>, values: seq<IterVar>) returns (res: seq<IterVar>)
    requires |slots| == |values| && Distinct(slots) && forall k :: 0 <= k < |slots| ==> slots[k] < |s|
    ensures |res| == |s|
    ensures forall k :: 0 <= k < |slots| ==> res[slots[k]] == values[k]
    ensures forall j :: 0 <= j < |s| && j !in slots ==> res[j] == s[j]
  {
    res := s;
    var i := 0;
    while i < |slots|
      invariant 0 <= i <= |slots| && |res| == |s|
      invariant forall k :: 0 <= k < i ==> res[slots[k]] == values[k]
      invariant forall j :: 0 <= j < |s| && j !in slots[..i] ==> res[j] == s[j]
    {
      res := res[slots[i] := values[i]];
      assert slots[..i + 1] == slots[..i] + [slots[i]];
      i := i + 1;
    }
    assert slots[..i] == slots;
  }

  // ---------------------------------------------------------------- level 0 of a TSL stage

  /** `[l0, r0, l1, r1, ...]`. */
  function Interleave(ls: seq<IterVar>, rs: seq<IterVar>): (r: seq<IterVar>)
    requires |ls| == |rs|
  {
    seq(2 * |ls|, j requires 0 <= j < 2 * |ls| => if j % 2 == 0 then ls[j / 2] else rs[j / 2])
  }

  /** The first `n` root variables, each non-opaque one followed by its left and right variables. */
  function ExpandUpTo(root: seq<IterVar>, n: nat, ls: seq<IterVar>, rs: seq<IterVar>): (r: seq<IterVar>)
    requires n <= |root| && |ls| == |rs| == |NonOpaqueUpTo(root, n)|
    ensures |r| == n + 2 * |ls|
  {
    if n == 0 then []
    else
      var v := root[n - 1];
      if v.iterType == Opaque then ExpandUpTo(root, n - 1, ls, rs) + [v]
      else
        var m := |ls| - 1;
        ExpandUpTo(root, n - 1, ls[..m], rs[..m]) + [v, ls[m], rs[m]]
  }

  /** The name suffix of the left or right variable created at decomposition depth `d`. */
  function LevelSuffix(d: nat, side: string): string
  {
    "." + TensorOps.NatToString(d) + side
  }

  /**
   * `l` and `r` are the left and right variables made from `v` at decomposition depth
   * `d`: two distinct variables named after `v`, of its type and kind, without a range.
   */
  predicate LeftRightOf(v: IterVar, l: IterVar, r: IterVar, d: nat)
  {
    l != r && l.v != r.v
    && l.v.name == v.v.name + LevelSuffix(d, "L") && r.v.name == v.v.name + LevelSuffix(d, "R")
    && l.v.dtype == v.v.dtype && r.v.dtype == v.v.dtype
    && l.iterType == v.iterType && r.iterType == v.iterType
    && l.dom == None && r.dom == None && l.threadTag == "" && r.threadTag == ""
  }

  /** Appending a new root variable and its two new parts keeps the lists well formed. */
  lemma LevelZeroStep(all: seq<IterVar>, leaf: seq<IterVar>, v: IterVar, l: IterVar, r: IterVar)
    requires SpaceOk(all, leaf) && v !in all && l !in all && r !in all && v != l && v != r && l != r
    ensures SpaceOk(all + [v, l, r], leaf + [l, r])
  {
    var a := all + [v, l, r];
    forall i, j | 0 <= i < j < |a| ensures a[i] != a[j] {
      if j < |all| {
        assert a[i] == all[i] && a[j] == all[j];
      } else if i < |all| {
        assert a[i] == all[i];
      }
    }
    var b := leaf + [l, r];
    forall i, j | 0 <= i < j < |b| ensures b[i] != b[j] {
      if j < |leaf| {
        assert b[i] == leaf[i] && b[j] == leaf[j];
      } else if i < |leaf| {
        assert b[i] == leaf[i] && b[i] in all;
      }
    }
  }

  /** Appending a new opaque root variable keeps the lists well formed. */
  lemma OpaqueStep(all: seq<IterVar>, leaf: seq<IterVar>, v: IterVar)
    requires SpaceOk(all, leaf) && v !in all
    ensures SpaceOk(all + [v], leaf)
  {
    var a := all + [v];
    forall i, j | 0 <= i < j < |a| ensures a[i] != a[j] {
      if j < |all| {
        assert a[i] == all[i] && a[j] == all[j];
      } else {
        assert a[i] == all[i];
      }
    }
  }

  /** One more root variable: how the filter, the interleaving and the expansion grow. */
  lemma ExpandStep(root: seq<IterVar>, n: nat, ls: seq<IterVar>, rs: seq<IterVar>, l: IterVar, r: IterVar)
    requires n < |root| && |ls| == |rs| == |NonOpaqueUpTo(root, n)|
    ensures root[n].iterType != Opaque ==>
      NonOpaqueUpTo(root, n + 1) == NonOpaqueUpTo(root, n) + [root[n]]
      && Interleave(ls + [l], rs + [r]) == Interleave(ls, rs) + [l, r]
      && ExpandUpTo(root, n + 1, ls + [l], rs + [r]) == ExpandUpTo(root, n, ls, rs) + [root[n], l, r]
    ensures root[n].iterType == Opaque ==>
      NonOpaqueUpTo(root, n + 1) == NonOpaqueUpTo(root, n)
      && ExpandUpTo(root, n + 1, ls, rs) == ExpandUpTo(root, n, ls, rs) + [root[n]]
  {
    assert (ls + [l])[..|ls|] == ls && (rs + [r])[..|rs|] == rs;
  }

  /** Appends `v` and its new level-0 parts to the variables, and the parts to the leaves. */
  method AppendPair(v: IterVar, all: seq<IterVar>, leaf: seq<IterVar>)
    returns (l: IterVar, r: IterVar, all': seq<IterVar>, leaf': seq<IterVar>)
    ensures fresh(l) && fresh(r) && fresh(l.v) && fresh(r.v) && LeftRightOf(v, l, r, 0)
    ensures all' == all + [v, l, r] && leaf' == leaf + [l, r]
    ensures Distinct(leaf) ==> Distinct(leaf')
  {
    l, r := LeftRight(v, 0);
    assert l !in leaf && r !in leaf;
    all', leaf' := all + [v, l, r], leaf + [l, r];
    if Distinct(leaf) {
      forall i, j | 0 <= i < j < |leaf'| ensures leaf'[i] != leaf'[j] {
        if j < |leaf| {
          assert leaf'[i] == leaf[i] && leaf'[j] == leaf[j];
        } else if i < |leaf| {
          assert leaf'[i] == leaf[i];
        }
      }
    }
  }

  /** The expansion holds only root variables and their parts. */
  lemma {:induction false} NotInExpand(root: seq<IterVar>, n: nat, ls: seq<IterVar>, rs: seq<IterVar>, x: IterVar)
    requires n <= |root| && |ls| == |rs| == |NonOpaqueUpTo(root, n)|
    requires x !in root[..n] && x !in ls && x !in rs
    ensures x !in ExpandUpTo(root, n, ls, rs)
  {
    if n > 0 {
      assert root[..n] == root[..n - 1] + [root[n - 1]];
      if root[n - 1].iterType == Opaque {
        NotInExpand(root, n - 1, ls, rs, x);
      } else {
        var m := |ls| - 1;
        assert ls == ls[..m] + [ls[m]] && rs == rs[..m] + [rs[m]];
        NotInExpand(root, n - 1, ls[..m], rs[..m], x);
      }
    }
  }

  /** New left and right variables made from `v` at depth `d`. */
  method LeftRight(v: IterVar, d: nat) returns (l: IterVar, r: IterVar)
    ensures fresh(l) && fresh(r) && fresh(l.v) && fresh(r.v) && LeftRightOf(v, l, r, d)
  {
    var lv := new Var(v.v.name + LevelSuffix(d, "L"), v.v.dtype);
    var rv := new Var(v.v.name + LevelSuffix(d, "R"), v.v.dtype);
    l := new IterVar(None, lv, v.iterType, "");
    r := new IterVar(None, rv, v.iterType, "");
  }

  /**
   * What the level-0 loop has built after the first `i` root variables: a pair of parts
   * and a split relation per non-opaque variable, the interleaved parts as leaves and
   * the expansion as all variables.
   */
  predicate LevelZeroSoFar(root: seq<IterVar>, i: nat, all: seq<IterVar>, leaf: seq<IterVar>,
                           rels: seq<Relation>, ls: seq<IterVar>, rs: seq<IterVar>)
  {
    i <= |root| && |ls| == |rs| == |rels| == |NonOpaqueUpTo(root, i)|
    && (forall k :: 0 <= k < |ls| ==> LeftRightOf(NonOpaqueUpTo(root, i)[k], ls[k], rs[k], 0))
    && (forall k :: 0 <= k < |ls| ==> rels[k] == SplitRelation(NonOpaqueUpTo(root, i)[k], rs[k], ls[k], None, Some(1)))
    && leaf == Interleave(ls, rs) && all == ExpandUpTo(root, i, ls, rs) && Distinct(leaf)
  }

  /** A non-opaque root variable extends the level-0 lists by itself, its parts and their relation. */
  lemma SoFarPair(root: seq<IterVar>, i: nat, all: seq<IterVar>, leaf: seq<IterVar>,
                  rels: seq<Relation>, ls: seq<IterVar>, rs: seq<IterVar>, l: IterVar, r: IterVar)
    requires i < |root| && root[i].iterType != Opaque && LevelZeroSoFar(root, i, all, leaf, rels, ls, rs)
    requires LeftRightOf(root[i], l, r, 0) && Distinct(leaf + [l, r])
    ensures LevelZeroSoFar(root, i + 1, all + [root[i], l, r], leaf + [l, r],
                           rels + [SplitRelation(root[i], r, l, None, Some(1))], ls + [l], rs + [r])
  {
    ExpandStep(root, i, ls, rs, l, r);
    var src := NonOpaqueUpTo(root, i + 1);
    assert src == NonOpaqueUpTo(root, i) + [root[i]];
    var rels' := rels + [SplitRelation(root[i], r, l, None, Some(1))];
    forall k | 0 <= k < |ls| + 1
      ensures LeftRightOf(src[k], (ls + [l])[k], (rs + [r])[k], 0)
      ensures rels'[k] == SplitRelation(src[k], (rs + [r])[k], (ls + [l])[k], None, Some(1))
    {
      if k < |ls| {
        assert src[k] == NonOpaqueUpTo(root, i)[k];
      }
    }
  }

  /** An opaque root variable only extends the list of all variables. */
  lemma SoFarOpaque(root: seq<IterVar>, i: nat, all: seq<IterVar>, leaf: seq<IterVar>,
                    rels: seq<Relation>, ls: seq<IterVar>, rs: seq<IterVar>)
    requires i < |root| && root[i].iterType == Opaque && LevelZeroSoFar(root, i, all, leaf, rels, ls, rs)
    ensures LevelZeroSoFar(root, i + 1, all + [root[i]], leaf, rels, ls, rs)
  {
    ExpandStep(root, i, ls, rs, root[i], root[i]);
  }

  /** With distinct root variables, the next root variable is not among those already listed. */
  lemma RootNotExpanded(root: seq<IterVar>, i: nat, all: seq<IterVar>, leaf: seq<IterVar>,
                        rels: seq<Relation>, ls: seq<IterVar>, rs: seq<IterVar>)
    requires i < |root| && LevelZeroSoFar(root, i, all, leaf, rels, ls, rs)
    requires root[i] !in ls && root[i] !in rs
    ensures Distinct(root) ==> root[i] !in ExpandUpTo(root, i, ls, rs)
  {
    if Distinct(root) {
      assert root[i] !in root[..i];
      NotInExpand(root, i, ls, rs, root[i]);
    }
  }

  /** One step of the level-0 loop on a root variable that is not opaque: its two parts. */
  method LevelZeroPair(root: seq<IterVar>, i: nat, all: seq<IterVar>, leaf: seq<IterVar>,
                       rels: seq<Relation>, ls: seq<IterVar>, rs: seq<IterVar>)
    returns (all': seq<IterVar>, leaf': seq<IterVar>, rels': seq<Relation>, ls': seq<IterVar>, rs': seq<IterVar>)
    requires i < |root| && root[i].iterType != Opaque && LevelZeroSoFar(root, i, all, leaf, rels, ls, rs)
    requires root[i] !in ls && root[i] !in rs && (Distinct(root) ==> SpaceOk(all, leaf))
    requires Distinct(root) ==> root[i] !in ExpandUpTo(root, i, ls, rs)
    ensures LevelZeroSoFar(root, i + 1, all', leaf', rels', ls', rs')
    ensures Distinct(root) ==> SpaceOk(all', leaf')
    ensures |ls| <= |ls'| && (forall k :: 0 <= k < |ls| ==> ls'[k] == ls[k] && rs'[k] == rs[k])
    ensures forall k :: |ls| <= k < |ls'| ==> fresh(ls'[k]) && fresh(rs'[k]) && fresh(ls'[k].v) && fresh(rs'[k].v)
  {
    var v := root[i];
    var left, right;
    left, right, all', leaf' := AppendPair(v, all, leaf);
    SoFarPair(root, i, all, leaf, rels, ls, rs, left, right);
    if Distinct(root) {
      LevelZeroStep(all, leaf, v, left, right);
    }
    rels' := rels + [SplitRelation(v, right, left, None, Some(1))];
    ls' := ls + [left];
    rs' := rs + [right];
  }

  /** One step of the level-0 loop on an opaque root variable: it only joins the list of all variables. */
  method LevelZeroOpaque(root: seq<IterVar>, i: nat, all: seq<IterVar>, leaf: seq<IterVar>,
                         rels: seq<Relation>, ls: seq<IterVar>, rs: seq<IterVar>)
    returns (all': seq<IterVar>, leaf': seq<IterVar>, rels': seq<Relation>, ls': seq<IterVar>, rs': seq<IterVar>)
    requires i < |root| && root[i].iterType == Opaque && LevelZeroSoFar(root, i, all, leaf, rels, ls, rs)
    requires Distinct(root) ==> SpaceOk(all, leaf) && root[i] !in ExpandUpTo(root, i, ls, rs)
    ensures LevelZeroSoFar(root, i + 1, all', leaf', rels', ls', rs')
    ensures Distinct(root) ==> SpaceOk(all', leaf')
    ensures ls' == ls && rs' == rs
  {
    SoFarOpaque(root, i, all, leaf, rels, ls, rs);
    if Distinct(root) {
      OpaqueStep(all, leaf, root[i]);
    }
    all', leaf', rels', ls', rs' := all + [root[i]], leaf, rels, ls, rs;
  }

  /** One step of the level-0 loop: root variable `i` and, unless it is opaque, its parts. */
  method LevelZeroNext(root: seq<IterVar>, i: nat, all: seq<IterVar>, leaf: seq<IterVar>,
                       rels: seq<Relation>, ls: seq<IterVar>, rs: seq<IterVar>)
    returns (all': seq<IterVar>, leaf': seq<IterVar>, rels': seq<Relation>, ls': seq<IterVar>, rs': seq<IterVar>)
    requires i < |root| && LevelZeroSoFar(root, i, all, leaf, rels, ls, rs)
    requires root[i] !in ls && root[i] !in rs && (Distinct(root) ==> SpaceOk(all, leaf))
    ensures LevelZeroSoFar(root, i + 1, all', leaf', rels', ls', rs')
    ensures Distinct(root) ==> SpaceOk(all', leaf')
    ensures |ls| <= |ls'| && (forall k :: 0 <= k < |ls| ==> ls'[k] == ls[k] && rs'[k] == rs[k])
    ensures forall k :: |ls| <= k < |ls'| ==> fresh(ls'[k]) && fresh(rs'[k]) && fresh(ls'[k].v) && fresh(rs'[k].v)
  {
    RootNotExpanded(root, i, all, leaf, rels, ls, rs);
    if root[i].iterType != Opaque {
      all', leaf', rels', ls', rs' := LevelZeroPair(root, i, all, leaf, rels, ls, rs);
    } else {
      all', leaf', rels', ls', rs' := LevelZeroOpaque(root, i, all, leaf, rels, ls, rs);
    }
  }

  /**
   * The level-0 split of a TSL stage: for each non-opaque root variable, a left and a
   * right variable named after it, both leaves, and a split relation with the right
   * variable as outer part, the left one as inner part and one part.
   */
  method LevelZero(root: seq<IterVar>, factors: seq<int>)
    returns (all: seq<IterVar>, leaf: seq<IterVar>, rels: seq<Relation>, entry: DecompLevel)
    ensures entry.factors == factors && entry.level == 0 && rels == entry.splitRelations
    ensures LevelZeroSoFar(root, |root|, all, leaf, rels, entry.leftIvars, entry.rightIvars)
    ensures forall k :: 0 <= k < |entry.leftIvars| ==>
      fresh(entry.leftIvars[k]) && fresh(entry.rightIvars[k])
      && fresh(entry.leftIvars[k].v) && fresh(entry.rightIvars[k].v)
    ensures Distinct(root) ==> SpaceOk(all, leaf)
  {
    all, leaf, rels := [], [], [];
    var ls: seq<IterVar>, rs: seq<IterVar> := [], [];
    var i := 0;
    while i < |root|
      invariant 0 <= i <= |root|
      invariant LevelZeroSoFar(root, i, all, leaf, rels, ls, rs)
      invariant forall k :: 0 <= k < |ls| ==> fresh(ls[k]) && fresh(rs[k]) && fresh(ls[k].v) && fresh(rs[k].v)
      invariant Distinct(root) ==> SpaceOk(all, leaf)
    {
      assert root[i] !in ls && root[i] !in rs;
      all, leaf, rels, ls, rs := LevelZeroNext(root, i, all, leaf, rels, ls, rs);
      i := i + 1;
    }
    entry := DecompLevel(factors, 0, ls, rs, rels);
  }

  // ---------------------------------------------------------------- decomposition

  /** Every split relation recorded by a decomposition level is a split. */
  predicate SplitsOnly(e: DecompLevel)
  {
    forall k :: 0 <= k < |e.splitRelations| ==> e.splitRelations[k].SplitRelation?
  }

  /**
   * New factor `k` fits the current top level: that level has a dimension `k`, and
   * the factor is positive, strictly below the level's factor and divides it evenly.
   */
  predicate FactorFits(top: seq<int>, factors: seq<int>, k: int)
  {
    0 <= k < |factors| && k < |top| && 0 < factors[k] < top[k] && top[k] % factors[k] == 0
  }

  /**
   * The factor checks of `decompose` from dimension `i` on: each new factor must be
   * strictly below the current top level's factor and divide it evenly. A factor
   * that is not positive is rejected with `NonEven`: factors are taken to be
   * positive tile sizes.
   */
  function FactorCheck(top: seq<int>, factors: seq<int>, i: nat): (r: Outcome<StageError>)
    requires i <= |factors|
    ensures r.Pass? <==> forall k :: i <= k < |factors| ==> FactorFits(top, factors, k)
    ensures r.Pass? ==> forall k :: i <= k < |factors| ==> 0 < factors[k]
    ensures r.Fail? ==> r.error in {OutOfRange, FactorNotSmaller, NonEven}
    ensures r.Pass? && i < |factors| ==> |factors| <= |top|
    decreases |factors| - i
  {
    if i == |factors| then Pass
    // Dimension `i` is the witness whenever a check fails.
    else if i >= |top| then assert !FactorFits(top, factors, i); Fail(OutOfRange)
    else if !(factors[i] < top[i]) then assert !FactorFits(top, factors, i); Fail(FactorNotSmaller)
    else if factors[i] <= 0 || top[i] % factors[i] != 0 then assert !FactorFits(top, factors, i); Fail(NonEven)
    else
      var rest := FactorCheck(top, factors, i + 1);
      if rest.Pass? then FactorsFitFrom(top, factors, i); rest else rest
  }

  /** A factor that fits at `i`, followed by factors that fit, gives factors that all fit from `i`. */
  lemma FactorsFitFrom(top: seq<int>, factors: seq<int>, i: nat)
    requires FactorFits(top, factors, i)
    requires forall k :: i + 1 <= k < |factors| ==> FactorFits(top, factors, k)
    ensures forall k :: i <= k < |factors| ==> FactorFits(top, factors, k)
    ensures forall k :: i <= k < |factors| ==> 0 < factors[k]
  {
    forall k | i <= k < |factors| ensures FactorFits(top, factors, k) && 0 < factors[k] {
      if k != i {
        assert i + 1 <= k;
      }
    }
  }

  /**
   * The checks `decompose` makes before it changes anything: a compute operation with
   * the TSL attribute, a current level, an output 0, one factor per output dimension,
   * the factor checks, and a new extent for every axis.
   */
  function DecomposeCheck(op: Option<Operation>, stack: seq<DecompLevel>, factors: seq<int>): (r: Outcome<StageError>)
    ensures r.Pass? <==>
      op.Some? && op.value.kind.ComputeOp? && TslOpAttr in op.value.attrs && |stack| > 0
      && |op.value.outputs| > 0 && |factors| == |op.value.outputs[0].shape|
      && FactorCheck(stack[|stack| - 1].factors, factors, 0).Pass?
      && |op.value.kind.axis| <= |factors|
    ensures (op.None? || !op.value.kind.ComputeOp?) ==> r == Fail(NotComputeOp)
  {
    if op.None? || !op.value.kind.ComputeOp? then Fail(NotComputeOp)
    else if TslOpAttr !in op.value.attrs then Fail(NotTslOp)
    else if |stack| == 0 then Fail(NoDecompLevel)
    else if |op.value.outputs| == 0 then Fail(NoOutput)
    else if |factors| != |op.value.outputs[0].shape| then Fail(FactorCount)
    else
      var c := FactorCheck(stack[|stack| - 1].factors, factors, 0);
      if c.Fail? then c
      else if |op.value.kind.axis| > |factors| then Fail(OutOfRange)
      else Pass
  }

  /** The union extents after a decomposition: each output extent over its new factor. */
  function UnionShape(shape: seq<int>, factors: seq<int>): seq<int>
    requires |shape| == |factors| && forall k :: 0 <= k < |factors| ==> factors[k] > 0
  {
    seq(|shape|, k requires 0 <= k < |shape| => shape[k] / factors[k])
  }

  /**
   * The outputs of the decomposed operation: each keeps its type, takes the output-0
   * extents, and is tiled by the new union and element shapes.
   */
  function Retiled(outs: seq<OutputSig>, shape: seq<int>, ushape: seq<int>, eshape: seq<int>): seq<OutputSig>
  {
    seq(|outs|, k requires 0 <= k < |outs| => OutputSig(outs[k].dtype, shape, ushape, eshape))
  }

  /** New axes over the union extents, each on the variable, kind and tag of its old axis. */
  method NewAxes(axis: seq<IterVar>, ushape: seq<int>) returns (na: seq<IterVar>)
    requires |axis| <= |ushape|
    ensures |na| == |axis|
    ensures forall k :: 0 <= k < |axis| ==>
      fresh(na[k]) && na[k].dom == Some(Range(0, ushape[k])) && na[k].v == axis[k].v
      && na[k].iterType == axis[k].iterType && na[k].threadTag == axis[k].threadTag
  {
    na := [];
    var i := 0;
    while i < |axis|
      invariant 0 <= i <= |axis| && |na| == i
      invariant forall k :: 0 <= k < i ==>
        fresh(na[k]) && na[k].dom == Some(Range(0, ushape[k])) && na[k].v == axis[k].v
        && na[k].iterType == axis[k].iterType && na[k].threadTag == axis[k].threadTag
    {
      var a := new IterVar(Some(Range(0, ushape[i])), axis[i].v, axis[i].iterType, axis[i].threadTag);
      na := na + [a];
      i := i + 1;
    }
  }

  /** One new axis per old axis, on the same variable. */
  predicate AxesOnVars(na: seq<IterVar>, axis: seq<IterVar>)
  {
    |na| == |axis| && forall k :: 0 <= k < |na| ==> na[k].v == axis[k].v
  }

  /**
   * The operation `decompose` builds from compute operation `o`: fresh axes over the
   * union extents (see `Decomposed`).
   */
  method DecomposedOp(o: Operation, factors: seq<int>) returns (n: Operation)
    requires o.kind.ComputeOp? && |o.outputs| > 0 && |factors| == |o.outputs[0].shape|
    requires (forall k :: 0 <= k < |factors| ==> factors[k] > 0) && |o.kind.axis| <= |factors|
    ensures fresh(n) && Decomposed(o, n, factors)
    ensures forall k :: 0 <= k < |n.kind.axis| ==> fresh(n.kind.axis[k])
  {
    var shape := o.outputs[0].shape;
    var ushape := UnionShape(shape, factors);
    var na := NewAxes(o.kind.axis, ushape);
    n := new Operation(o.name, o.tag, o.attrs, ComputeOp(na, o.kind.reduceAxis, o.kind.body),
                       na + o.kind.reduceAxis, Retiled(o.outputs, shape, ushape, factors));
  }

  /** `s` without the first occurrence of `x`. */
  function EraseFirst(s: seq<IterVar>, x: IterVar): (r: seq<IterVar>)
    requires x in s
    ensures |r| == |s| - 1
  {
    s[..FirstIndex(s, x)] + s[FirstIndex(s, x) + 1..]
  }

  /** Erasing from a list without repetitions removes exactly the one variable. */
  lemma EraseFirstDistinct(s: seq<IterVar>, x: IterVar)
    requires Distinct(s) && x in s
    ensures Distinct(EraseFirst(s, x))
    ensures forall v :: v in EraseFirst(s, x) <==> v in s && v != x
  {
    var p, r := FirstIndex(s, x), EraseFirst(s, x);
    forall i, j | 0 <= i < j < |r| ensures r[i] != r[j] {
      var a := if i < p then i else i + 1;
      var b := if j < p then j else j + 1;
      assert r[i] == s[a] && r[j] == s[b] && a < b;
    }
    forall v | v in s && v != x ensures v in r {
      var i :| 0 <= i < |s| && s[i] == v;
      if i < p {
        assert r[i] == v;
      } else {
        assert r[i - 1] == v;
      }
    }
    forall v | v in r ensures v in s && v != x {
      var i :| 0 <= i < |r| && r[i] == v;
      var a := if i < p then i else i + 1;
      assert v == s[a] && a != p;
    }
  }

  /** Erasing a variable of the front part leaves the back part alone. */
  lemma EraseFirstAppend(a: seq<IterVar>, b: seq<IterVar>, x: IterVar)
    requires x in a
    ensures FirstIndex(a + b, x) == FirstIndex(a, x)
    ensures EraseFirst(a + b, x) == EraseFirst(a, x) + b
  {
    var p := FirstIndex(a, x);
    FirstIndexAt(a + b, p);
    assert (a + b)[..p] == a[..p];
    assert (a + b)[p + 1..] == a[p + 1..] + b;
  }

  /**
   * The leaf list after the top level's left variables `vs` are erased one by one, or
   * the first failure: a reduce variable, or a variable that is no longer a leaf.
   */
  function EraseLefts(leaf: seq<IterVar>, vs: seq<IterVar>): (r: Result<seq<IterVar>, StageError>)
    ensures r.Ok? ==> |r.value| == |leaf| - |vs|
    ensures r.Err? ==> r.error in {ReduceNotSupported, LeftVarMissing}
    decreases |vs|
  {
    if |vs| == 0 then Ok(leaf)
    else if vs[0].iterType == CommReduce then Err(ReduceNotSupported)
    else if vs[0] !in leaf then Err(LeftVarMissing)
    else EraseLefts(EraseFirst(leaf, vs[0]), vs[1..])
  }

  /** Erasing `a + b` is erasing `a`, then `b` from what is left, unless `a` fails. */
  lemma {:induction false} EraseLeftsConcat(leaf: seq<IterVar>, a: seq<IterVar>, b: seq<IterVar>)
    ensures EraseLefts(leaf, a + b)
            == if EraseLefts(leaf, a).Ok? then EraseLefts(EraseLefts(leaf, a).value, b) else EraseLefts(leaf, a)
    decreases |a|
  {
    if |a| > 0 {
      assert (a + b)[0] == a[0] && (a + b)[1..] == a[1..] + b;
      if a[0].iterType != CommReduce && a[0] in leaf {
        EraseLeftsConcat(EraseFirst(leaf, a[0]), a[1..], b);
      }
    } else {
      assert a + b == b;
    }
  }

  /** The left variables are distinct leaves, none of them a reduce variable. */
  predicate LeftsOk(leaf: seq<IterVar>, vs: seq<IterVar>)
  {
    Distinct(vs) && forall k :: 0 <= k < |vs| ==> vs[k] in leaf && vs[k].iterType != CommReduce
  }

  /** `LeftsOk` after the first variable is erased from a list without repetitions. */
  lemma LeftsOkStep(leaf: seq<IterVar>, vs: seq<IterVar>)
    requires Distinct(leaf) && |vs| > 0 && vs[0] in leaf
    ensures LeftsOk(leaf, vs) <==> vs[0].iterType != CommReduce && LeftsOk(EraseFirst(leaf, vs[0]), vs[1..])
  {
    var rest, tl := EraseFirst(leaf, vs[0]), vs[1..];
    EraseFirstDistinct(leaf, vs[0]);
    if vs[0].iterType != CommReduce && LeftsOk(rest, tl) {
      forall i, j | 0 <= i < j < |vs| ensures vs[i] != vs[j] {
        assert vs[j] == tl[j - 1] && vs[j] in rest;
        if i > 0 {
          assert vs[i] == tl[i - 1];
        }
      }
      forall k | 0 < k < |vs| ensures vs[k] in leaf && vs[k].iterType != CommReduce {
        assert vs[k] == tl[k - 1];
      }
    }
    if LeftsOk(leaf, vs) {
      forall k | 0 <= k < |tl| ensures tl[k] in rest && tl[k].iterType != CommReduce {
        assert tl[k] == vs[k + 1] != vs[0];
      }
      forall i, j | 0 <= i < j < |tl| ensures tl[i] != tl[j] {
        assert tl[i] == vs[i + 1] && tl[j] == vs[j + 1];
      }
    }
  }

  /**
   * On a leaf list without repetitions the erasing succeeds exactly when the variables
   * are distinct leaves and none is a reduce variable, and it removes exactly them.
   */
  lemma {:induction false} EraseLeftsDistinct(leaf: seq<IterVar>, vs: seq<IterVar>)
    requires Distinct(leaf)
    ensures EraseLefts(leaf, vs).Ok? <==> LeftsOk(leaf, vs)
    ensures EraseLefts(leaf, vs).Ok? ==>
      Distinct(EraseLefts(leaf, vs).value)
      && forall v :: v in EraseLefts(leaf, vs).value <==> v in leaf && v !in vs
    decreases |vs|
  {
    if |vs| > 0 {
      if vs[0] in leaf {
        var rest := EraseFirst(leaf, vs[0]);
        EraseFirstDistinct(leaf, vs[0]);
        LeftsOkStep(leaf, vs);
        if vs[0].iterType != CommReduce {
          EraseLeftsDistinct(rest, vs[1..]);
          assert EraseLefts(leaf, vs) == EraseLefts(rest, vs[1..]);
          assert forall v :: v in vs <==> v == vs[0] || v in vs[1..] by {
            assert vs == [vs[0]] + vs[1..];
          }
        }
      } else {
        assert !LeftsOk(leaf, vs) by {
          assert vs[0] !in leaf;
        }
      }
    }
  }

  /** Appending a pair to both lists appends it to their interleaving. */
  lemma InterleaveSnoc(ls: seq<IterVar>, rs: seq<IterVar>, l: IterVar, r: IterVar)
    requires |ls| == |rs|
    ensures Interleave(ls + [l], rs + [r]) == Interleave(ls, rs) + [l, r]
  {
    var a, b := Interleave(ls + [l], rs + [r]), Interleave(ls, rs) + [l, r];
    forall j | 0 <= j < |a| ensures a[j] == b[j] {
      if j < 2 * |ls| {
        assert (ls + [l])[j / 2] == ls[j / 2] && (rs + [r])[j / 2] == rs[j / 2];
      }
    }
  }

  /** Appending a pair of new variables keeps an interleaving without repetitions. */
  lemma InterleaveDistinctSnoc(ls: seq<IterVar>, rs: seq<IterVar>, l: IterVar, r: IterVar)
    requires |ls| == |rs| && Distinct(Interleave(ls, rs))
    requires l !in Interleave(ls, rs) && r !in Interleave(ls, rs) && l != r
    ensures Distinct(Interleave(ls + [l], rs + [r]))
  {
    InterleaveSnoc(ls, rs, l, r);
    DistinctAppend(Interleave(ls, rs), [l, r]);
  }

  /**
   * The split relations of a new level: left variable `vs[k]` of the level below is
   * split into `rs[k]` (outer) and `ls[k]` (inner), in `top[k] / factors[k]` parts.
   */
  function LevelSplits(vs: seq<IterVar>, ls: seq<IterVar>, rs: seq<IterVar>, top: seq<int>, factors: seq<int>): (r: seq<Relation>)
    requires |ls| == |rs| <= |vs| && |ls| <= |top| && |ls| <= |factors|
    requires forall k :: 0 <= k < |ls| ==> factors[k] > 0
    ensures |r| == |ls| && forall k :: 0 <= k < |r| ==> r[k].SplitRelation?
  {
    seq(|ls|, k requires 0 <= k < |ls| => SplitRelation(vs[k], rs[k], ls[k], None, Some(top[k] / factors[k])))
  }

  /** One more pair adds one split relation at the end. */
  lemma LevelSplitsSnoc(vs: seq<IterVar>, ls: seq<IterVar>, rs: seq<IterVar>, top: seq<int>, factors: seq<int>,
                        l: IterVar, r: IterVar)
    requires |ls| == |rs| < |vs| && |ls| < |top| && |ls| < |factors|
    requires forall k :: 0 <= k <= |ls| ==> factors[k] > 0
    ensures LevelSplits(vs, ls + [l], rs + [r], top, factors)
            == LevelSplits(vs, ls, rs, top, factors) + [SplitRelation(vs[|ls|], r, l, None, Some(top[|ls|] / factors[|ls|]))]
  {
    var a := LevelSplits(vs, ls + [l], rs + [r], top, factors);
    var b := LevelSplits(vs, ls, rs, top, factors) + [SplitRelation(vs[|ls|], r, l, None, Some(top[|ls|] / factors[|ls|]))];
    forall k | 0 <= k < |a| ensures a[k] == b[k] {
      if k < |ls| {
        assert (ls + [l])[k] == ls[k] && (rs + [r])[k] == rs[k];
      }
    }
  }

  /**
   * One left variable `v` of the first half of `decompStackPushHelper`: the reduce
   * check, its removal from the leaves and its new left and right variables, appended
   * to the leaves. The leaves are the list still being erased followed by the pairs
   * made so far.
   */
  method SplitOne(v: IterVar, d: nat, ghost erased: seq<IterVar>, leaf: seq<IterVar>, ls: seq<IterVar>, rs: seq<IterVar>)
    returns (r: Outcome<StageError>, leaf': seq<IterVar>, l: IterVar, rt: IterVar)
    requires |ls| == |rs| && leaf == erased + Interleave(ls, rs) && v !in Interleave(ls, rs)
    ensures r.Pass? <==> v.iterType != CommReduce && v in erased
    ensures r.Fail? ==> r.error == (if v.iterType == CommReduce then ReduceNotSupported else LeftVarMissing)
    ensures r.Pass? ==>
      fresh(l) && fresh(rt) && fresh(l.v) && fresh(rt.v) && LeftRightOf(v, l, rt, d)
      && leaf' == EraseFirst(erased, v) + Interleave(ls + [l], rs + [rt])
  {
    leaf', l, rt := leaf, v, v;
    if v.iterType == CommReduce {
      return Fail(ReduceNotSupported), leaf', l, rt;
    }
    var pos := FindNodeRef(leaf, v);
    if pos == |leaf| {
      return Fail(LeftVarMissing), leaf', l, rt;
    }
    EraseFirstAppend(erased, Interleave(ls, rs), v);
    l, rt := LeftRight(v, d);
    InterleaveSnoc(ls, rs, l, rt);
    leaf' := leaf[..pos] + leaf[pos + 1..] + [l, rt];
    return Pass, leaf', l, rt;
  }

  /**
   * What the first half of `decompStackPushHelper` has built after the first `i` left
   * variables: `erased` is the original leaf list with those variables erased, and
   * their new pairs and split relations follow the original lists.
   */
  predicate LeftsSoFar(vs: seq<IterVar>, top: seq<int>, factors: seq<int>, d: nat,
                       leaf: seq<IterVar>, all: seq<IterVar>, rels: seq<Relation>, i: nat, erased: seq<IterVar>,
                       leaf': seq<IterVar>, all': seq<IterVar>, rels': seq<Relation>, ls: seq<IterVar>, rs: seq<IterVar>)
  {
    |vs| <= |top| && |vs| == |factors| && (forall k :: 0 <= k < |factors| ==> factors[k] > 0)
    && i <= |vs| && |ls| == |rs| == i
    && (forall k :: 0 <= k < i ==> LeftRightOf(vs[k], ls[k], rs[k], d))
    && EraseLefts(leaf, vs) == EraseLefts(erased, vs[i..])
    && EraseLefts(leaf, vs[..i]) == Ok(erased)
    && leaf' == erased + Interleave(ls, rs)
    && all' == all + Interleave(ls, rs)
    && rels' == rels + LevelSplits(vs, ls, rs, top, factors)
  }

  /** One step of the first half of `decompStackPushHelper`, for left variable `vs[i]`. */
  method SplitLeftNext(vs: seq<IterVar>, top: seq<int>, factors: seq<int>, d: nat,
                       leaf: seq<IterVar>, all: seq<IterVar>, rels: seq<Relation>, i: nat, ghost erased: seq<IterVar>,
                       leaf': seq<IterVar>, all': seq<IterVar>, rels': seq<Relation>, ls: seq<IterVar>, rs: seq<IterVar>,
                       ghost avoid: set<IterVar>)
    returns (c: Outcome<StageError>, ghost erased2: seq<IterVar>, leaf2: seq<IterVar>, all2: seq<IterVar>,
             rels2: seq<Relation>, ls2: seq<IterVar>, rs2: seq<IterVar>)
    requires i < |vs| && LeftsSoFar(vs, top, factors, d, leaf, all, rels, i, erased, leaf', all', rels', ls, rs)
    requires vs[i] !in Interleave(ls, rs) && Distinct(Interleave(ls, rs))
    ensures c.Fail? ==> EraseLefts(leaf, vs) == Err(c.error)
    ensures c.Fail? ==>
      (vs[i].iterType == CommReduce || vs[i] !in erased)
      && c.error == (if vs[i].iterType == CommReduce then ReduceNotSupported else LeftVarMissing)
      && leaf2 == leaf' && all2 == all' && rels2 == rels' && ls2 == ls && rs2 == rs
    ensures c.Pass? ==>
      LeftsSoFar(vs, top, factors, d, leaf, all, rels, i + 1, erased2, leaf2, all2, rels2, ls2, rs2)
      && Distinct(Interleave(ls2, rs2))
      && ls2[..i] == ls && rs2[..i] == rs
      && fresh(ls2[i]) && fresh(rs2[i]) && fresh(ls2[i].v) && fresh(rs2[i].v)
      && ls2[i] !in avoid && rs2[i] !in avoid
  {
    var v := vs[i];
    assert vs[i..] == [v] + vs[i + 1..];
    var next, l, rt;
    c, next, l, rt := SplitOne(v, d, erased, leaf', ls, rs);
    erased2, leaf2, all2, rels2, ls2, rs2 := erased, leaf', all', rels', ls, rs;
    if c.Pass? {
      InterleaveSnoc(ls, rs, l, rt);
      InterleaveDistinctSnoc(ls, rs, l, rt);
      LevelSplitsSnoc(vs, ls, rs, top, factors, l, rt);
      erased2 := EraseFirst(erased, v);
      assert vs[..i + 1] == vs[..i] + [v];
      EraseLeftsConcat(leaf, vs[..i], [v]);
      assert EraseLefts(erased, [v]) == EraseLefts(erased2, []);
      leaf2 := next;
      all2 := all' + [l, rt];
      rels2 := rels' + [SplitRelation(v, rt, l, None, Some(top[i] / factors[i]))];
      ls2, rs2 := ls + [l], rs + [rt];
      assert ls2[..i] == ls && rs2[..i] == rs;
      forall k | 0 <= k < i + 1 ensures LeftRightOf(vs[k], ls2[k], rs2[k], d) {
        if k < i {
          assert ls2[k] == ls[k] && rs2[k] == rs[k];
        }
      }
    }
  }

  /**
   * The first half of `decompStackPushHelper`: each left variable `vs[k]` of the top
   * level leaves the leaf list and is split into a new left and a new right variable
   * named for depth `d`; both are appended to the leaves and to all variables, and
   * their split relation to the relations. On a failed check the lists keep the
   * variables `vs[..done]` already handled, as `LeftsSoFar` describes.
   */
  method SplitLefts(vs: seq<IterVar>, top: seq<int>, factors: seq<int>, d: nat,
                    leaf: seq<IterVar>, all: seq<IterVar>, rels: seq<Relation>, ghost avoid: set<IterVar>)
    returns (r: Outcome<StageError>, leaf': seq<IterVar>, all': seq<IterVar>, rels': seq<Relation>,
             ls: seq<IterVar>, rs: seq<IterVar>, ghost done: nat, ghost erased: seq<IterVar>)
    requires |vs| <= |top| && |vs| == |factors| && forall k :: 0 <= k < |factors| ==> factors[k] > 0
    ensures r.Pass? <==> EraseLefts(leaf, vs).Ok?
    ensures r.Fail? ==> r.error == EraseLefts(leaf, vs).error
    ensures r.Fail? ==>
      done < |vs| && LeftsSoFar(vs, top, factors, d, leaf, all, rels, done, erased, leaf', all', rels', ls, rs)
      && (vs[done].iterType == CommReduce || vs[done] !in erased)
      && r.error == (if vs[done].iterType == CommReduce then ReduceNotSupported else LeftVarMissing)
      && Distinct(Interleave(ls, rs))
      && forall k :: 0 <= k < done ==> ls[k] !in avoid && rs[k] !in avoid
    ensures r.Pass? ==>
      |ls| == |rs| == |vs|
      && (forall k :: 0 <= k < |vs| ==>
            fresh(ls[k]) && fresh(rs[k]) && fresh(ls[k].v) && fresh(rs[k].v) && LeftRightOf(vs[k], ls[k], rs[k], d))
      && Distinct(Interleave(ls, rs))
      && (forall k :: 0 <= k < |vs| ==> ls[k] !in avoid && rs[k] !in avoid)
      && leaf' == EraseLefts(leaf, vs).value + Interleave(ls, rs)
      && all' == all + Interleave(ls, rs)
      && rels' == rels + LevelSplits(vs, ls, rs, top, factors)
  {
    erased := leaf;
    leaf', all', rels', ls, rs := leaf, all, rels, [], [];
    var i := 0;
    while i < |vs|
      invariant LeftsSoFar(vs, top, factors, d, leaf, all, rels, i, erased, leaf', all', rels', ls, rs)
      invariant forall k :: 0 <= k < i ==> fresh(ls[k]) && fresh(rs[k]) && fresh(ls[k].v) && fresh(rs[k].v)
      invariant Distinct(Interleave(ls, rs))
      invariant forall k :: 0 <= k < i ==> ls[k] !in avoid && rs[k] !in avoid
    {
      assert vs[i] !in Interleave(ls, rs);
      var c;
      ghost var erased2;
      c, erased2, leaf', all', rels', ls, rs := SplitLeftNext(vs, top, factors, d, leaf, all, rels, i, erased, leaf', all', rels', ls, rs, avoid);
      if c.Fail? {
        return c, leaf', all', rels', ls, rs, i, erased;
      }
      erased := erased2;
      i := i + 1;
    }
    assert vs[i..] == [];
    return Pass, leaf', all', rels', ls, rs, i, erased;
  }

  /** A level-0 split relation with its parent replaced by `axis`. */
  function Rebased(rel: Relation, axis: IterVar): Relation
    requires rel.SplitRelation?
  {
    SplitRelation(axis, rel.outer, rel.inner, rel.factor, rel.nparts)
  }

  /** Every split of `olds` rebased onto the axis at the same position. */
  function RebasedSplits(olds: seq<Relation>, axes: seq<IterVar>): (r: seq<Relation>)
    requires |olds| == |axes| && forall k :: 0 <= k < |olds| ==> olds[k].SplitRelation?
    ensures |r| == |olds| && forall k :: 0 <= k < |r| ==> r[k].SplitRelation?
  {
    seq(|olds|, k requires 0 <= k < |olds| => Rebased(olds[k], axes[k]))
  }

  /**
   * The relation list after each split `olds[k]` is replaced in place by its rebased
   * form, one at a time, or the failure when one is no longer in the list.
   */
  function RebaseAll(rels: seq<Relation>, olds: seq<Relation>, axes: seq<IterVar>): (r: Result<seq<Relation>, StageError>)
    requires |olds| == |axes| && forall k :: 0 <= k < |olds| ==> olds[k].SplitRelation?
    ensures r.Ok? ==> |r.value| == |rels|
    ensures r.Err? ==> r.error == RelationMissing
    decreases |olds|
  {
    if |olds| == 0 then Ok(rels)
    else if olds[0] !in rels then Err(RelationMissing)
    else RebaseAll(rels[FirstIndex(rels, olds[0]) := Rebased(olds[0], axes[0])], olds[1..], axes[1..])
  }

  /** Replacing one element of a list swaps one occurrence of it for the new element. */
  lemma MultisetUpdate<T>(s: seq<T>, p: nat, x: T)
    requires p < |s|
    ensures multiset(s[p := x]) == multiset(s) - multiset{s[p]} + multiset{x}
  {
    assert s == s[..p] + [s[p]] + s[p + 1..];
    assert s[p := x] == s[..p] + [x] + s[p + 1..];
  }

  /**
   * Swapping one occurrence of the first old split `o` for a relation `n` that is no old
   * split keeps the rest of the old splits included exactly when all of them were.
   */
  lemma RebaseCount(rels: seq<Relation>, rels': seq<Relation>, olds: seq<Relation>, n: Relation)
    requires |olds| > 0 && olds[0] in rels && n !in olds
    requires multiset(rels') == multiset(rels) - multiset{olds[0]} + multiset{n}
    ensures multiset(olds[1..]) <= multiset(rels') <==> multiset(olds) <= multiset(rels)
  {
    var o := olds[0];
    assert olds == [o] + olds[1..];
    assert multiset(olds) == multiset{o} + multiset(olds[1..]);
    assert multiset(olds)[n] == 0;
    if multiset(olds[1..]) <= multiset(rels') {
      forall x ensures multiset(olds)[x] <= multiset(rels)[x] {
        if x == n {
          assert multiset(olds)[x] == 0;
        }
      }
    }
    if multiset(olds) <= multiset(rels) {
      forall x ensures multiset(olds[1..])[x] <= multiset(rels')[x] {
        assert multiset(olds)[x] <= multiset(rels)[x];
      }
    }
  }

  /** The no-rebased-split-is-old condition holds of the tail of the splits. */
  lemma RebaseDisjointTail(olds: seq<Relation>, axes: seq<IterVar>)
    requires |olds| == |axes| > 0 && forall k :: 0 <= k < |olds| ==> olds[k].SplitRelation?
    requires forall j, k :: 0 <= j < |olds| && 0 <= k < |olds| ==> Rebased(olds[j], axes[j]) != olds[k]
    ensures forall j, k :: 0 <= j < |olds| - 1 && 0 <= k < |olds| - 1 ==> Rebased(olds[1..][j], axes[1..][j]) != olds[1..][k]
    ensures Rebased(olds[0], axes[0]) !in olds
  {
    forall j, k | 0 <= j < |olds| - 1 && 0 <= k < |olds| - 1
      ensures Rebased(olds[1..][j], axes[1..][j]) != olds[1..][k]
    {
      assert olds[1..][j] == olds[j + 1] && axes[1..][j] == axes[j + 1] && olds[1..][k] == olds[k + 1];
    }
  }

  /**
   * When no rebased split is one of the old ones, the replacements all find their
   * relation exactly when the old splits, counted with repetition, are among the relations.
   */
  lemma {:induction false} RebaseAllOk(rels: seq<Relation>, olds: seq<Relation>, axes: seq<IterVar>)
    requires |olds| == |axes| && forall k :: 0 <= k < |olds| ==> olds[k].SplitRelation?
    requires forall j, k :: 0 <= j < |olds| && 0 <= k < |olds| ==> Rebased(olds[j], axes[j]) != olds[k]
    ensures RebaseAll(rels, olds, axes).Ok? <==> multiset(olds) <= multiset(rels)
    decreases |olds|
  {
    if |olds| > 0 {
      var o := olds[0];
      if o in rels {
        var p := FirstIndex(rels, o);
        var n := Rebased(o, axes[0]);
        RebaseDisjointTail(olds, axes);
        RebaseAllOk(rels[p := n], olds[1..], axes[1..]);
        MultisetUpdate(rels, p, n);
        RebaseCount(rels, rels[p := n], olds, n);
      } else {
        assert olds == [o] + olds[1..];
        assert multiset(rels)[o] == 0 && multiset(olds)[o] > 0;
      }
    }
  }

  /** Relations after the list do not change the replacements when none is an old split. */
  lemma {:induction false} RebaseAllAppend(rels: seq<Relation>, extra: seq<Relation>, olds: seq<Relation>, axes: seq<IterVar>)
    requires |olds| == |axes| && forall k :: 0 <= k < |olds| ==> olds[k].SplitRelation?
    requires forall k :: 0 <= k < |olds| ==> olds[k] !in extra
    ensures RebaseAll(rels + extra, olds, axes).Ok? == RebaseAll(rels, olds, axes).Ok?
    ensures RebaseAll(rels, olds, axes).Ok? ==>
      RebaseAll(rels + extra, olds, axes).value == RebaseAll(rels, olds, axes).value + extra
    decreases |olds|
  {
    if |olds| > 0 && olds[0] in rels {
      var p := FirstIndex(rels, olds[0]);
      FirstIndexAt(rels + extra, p);
      var n := Rebased(olds[0], axes[0]);
      assert (rels + extra)[p := n] == rels[p := n] + extra;
      forall k | 0 <= k < |olds| - 1 ensures olds[1..][k] !in extra {
        assert olds[1..][k] == olds[k + 1];
      }
      RebaseAllAppend(rels[p := n], extra, olds[1..], axes[1..]);
    } else if |olds| > 0 {
      assert olds[0] !in extra;
    }
  }

  /** Replacing the splits `a + b` is replacing `a`, then `b` in the result, unless `a` fails. */
  lemma {:induction false} RebaseAllConcat(rels: seq<Relation>, a: seq<Relation>, x: seq<IterVar>,
                                           b: seq<Relation>, y: seq<IterVar>)
    requires |a| == |x| && |b| == |y|
    requires (forall k :: 0 <= k < |a| ==> a[k].SplitRelation?) && forall k :: 0 <= k < |b| ==> b[k].SplitRelation?
    ensures RebaseAll(rels, a + b, x + y)
            == if RebaseAll(rels, a, x).Ok? then RebaseAll(RebaseAll(rels, a, x).value, b, y) else Err(RelationMissing)
    decreases |a|
  {
    if |a| > 0 {
      assert (a + b)[0] == a[0] && (a + b)[1..] == a[1..] + b;
      assert (x + y)[0] == x[0] && (x + y)[1..] == x[1..] + y;
      if a[0] in rels {
        RebaseAllConcat(rels[FirstIndex(rels, a[0]) := Rebased(a[0], x[0])], a[1..], x[1..], b, y);
      }
    } else {
      assert a + b == b && x + y == y;
    }
  }

  /**
   * The rebase after the first `i` splits: they are replaced in `cur` and in `news`,
   * and the rest of `olds` is still to do.
   */
  predicate RebasedSoFar(rels: seq<Relation>, olds: seq<Relation>, axes: seq<IterVar>, i: nat,
                         cur: seq<Relation>, news: seq<Relation>)
    requires |olds| == |axes| && forall k :: 0 <= k < |olds| ==> olds[k].SplitRelation?
  {
    i <= |olds| && |news| == |olds|
    && RebaseAll(rels, olds, axes) == RebaseAll(cur, olds[i..], axes[i..])
    && RebaseAll(rels, olds[..i], axes[..i]) == Ok(cur)
    && (forall k :: 0 <= k < i ==> news[k] == Rebased(olds[k], axes[k]))
    && (forall k :: i <= k < |olds| ==> news[k] == olds[k])
  }

  /** Part way through, the splits are the rebased first `i` followed by the old rest. */
  lemma RebasedSoFarSplits(rels: seq<Relation>, olds: seq<Relation>, axes: seq<IterVar>, i: nat,
                           cur: seq<Relation>, news: seq<Relation>)
    requires |olds| == |axes| && forall k :: 0 <= k < |olds| ==> olds[k].SplitRelation?
    requires RebasedSoFar(rels, olds, axes, i, cur, news)
    ensures news == RebasedSplits(olds[..i], axes[..i]) + olds[i..]
    ensures forall k :: 0 <= k < |news| ==> news[k].SplitRelation?
  {
    var want := RebasedSplits(olds[..i], axes[..i]) + olds[i..];
    forall k | 0 <= k < |news| ensures news[k] == want[k] {
      if k >= i {
        assert want[k] == olds[i..][k - i];
      }
    }
  }

  /** One step of the rebase: split `olds[i]` is replaced in both places, if it is still a relation. */
  method RebaseNext(rels: seq<Relation>, olds: seq<Relation>, axes: seq<IterVar>, i: nat,
                    cur: seq<Relation>, news: seq<Relation>)
    returns (found: bool, cur2: seq<Relation>, news2: seq<Relation>)
    requires |olds| == |axes| && forall k :: 0 <= k < |olds| ==> olds[k].SplitRelation?
    requires i < |olds| && RebasedSoFar(rels, olds, axes, i, cur, news)
    ensures found <==> olds[i] in cur
    ensures found ==> RebasedSoFar(rels, olds, axes, i + 1, cur2, news2)
    ensures !found ==> cur2 == cur && news2 == news
  {
    cur2, news2 := cur, news;
    var o := news[i];
    var n := SplitRelation(axes[i], o.outer, o.inner, o.factor, o.nparts);
    assert olds[i..] == [o] + olds[i + 1..] && axes[i..] == [axes[i]] + axes[i + 1..];
    var pos := FindNodeRef(cur, o);
    found := pos < |cur|;
    if found {
      assert olds[..i + 1] == olds[..i] + [o] && axes[..i + 1] == axes[..i] + [axes[i]];
      RebaseAllConcat(rels, olds[..i], axes[..i], [o], [axes[i]]);
      cur2 := cur[pos := n];
      news2 := news[i := n];
    }
  }

  /**
   * The second half of `decompStackPushHelper`: the level-0 split of each root axis is
   * rebased onto the new axis, in the relation list (at its old place) and in the
   * level-0 entry; there must be one new axis per level-0 split. The relations and
   * splits come back as far as they got: on a missing relation the first `done`
   * splits are rebased in both places and the rest are not.
   */
  method RebaseBottom(rels: seq<Relation>, olds: seq<Relation>, axes: seq<IterVar>)
    returns (r: Result<seq<Relation>, StageError>, cur: seq<Relation>, news: seq<Relation>, ghost done: nat)
    requires forall k :: 0 <= k < |olds| ==> olds[k].SplitRelation?
    ensures |olds| != |axes| ==> r == Err(AxisCount) && cur == rels && news == olds
    ensures |news| == |olds| && forall k :: 0 <= k < |news| ==> news[k].SplitRelation?
    ensures |olds| == |axes| ==> r == RebaseAll(rels, olds, axes)
    ensures r.Ok? ==> |olds| == |axes| && news == RebasedSplits(olds, axes) && cur == r.value
    ensures |olds| == |axes| && r.Err? ==>
      done < |olds| && RebaseAll(rels, olds[..done], axes[..done]) == Ok(cur) && olds[done] !in cur
      && news == RebasedSplits(olds[..done], axes[..done]) + olds[done..]
  {
    news, cur, done := olds, rels, 0;
    if |olds| != |axes| {
      return Err(AxisCount), cur, news, done;
    }
    var i := 0;
    assert olds[..0] == [] && axes[..0] == [] && olds[0..] == olds && axes[0..] == axes;
    while i < |axes|
      invariant RebasedSoFar(rels, olds, axes, i, cur, news)
    {
      var found;
      found, cur, news := RebaseNext(rels, olds, axes, i, cur, news);
      if !found {
        assert olds[i..] == [olds[i]] + olds[i + 1..];
        RebasedSoFarSplits(rels, olds, axes, i, cur, news);
        return Err(RelationMissing), cur, news, i;
      }
      i := i + 1;
    }
    assert olds[i..] == [] && axes[i..] == [] && olds[..i] == olds && axes[..i] == axes;
    RebasedSoFarSplits(rels, olds, axes, i, cur, news);
    return Ok(cur), cur, news, i;
  }

  /**
   * `decompose` succeeds: its own checks pass, then those of `decompStackPushHelper`
   * on new axes (see `PushCheckPasses`).
   */
  predicate DecomposeOk(op: Option<Operation>, leaf: seq<IterVar>, rels: seq<Relation>, stack: seq<DecompLevel>,
                        factors: seq<int>)
  {
    DecomposeCheck(op, stack, factors).Pass?
    && |factors| == |stack[|stack| - 1].leftIvars| && EraseLefts(leaf, stack[|stack| - 1].leftIvars).Ok?
    && |stack[0].splitRelations| == |op.value.kind.axis| && multiset(stack[0].splitRelations) <= multiset(rels)
  }

  /**
   * `n` is what `decompose` makes of compute operation `o`: the same name, tag,
   * attributes, reduce axes and body, one new axis per old axis over the output-0 extent
   * divided by the factor, and outputs retiled by the new union and element shapes.
   */
  ghost predicate Decomposed(o: Operation, n: Operation, factors: seq<int>)
  {
    o.kind.ComputeOp? && |o.outputs| > 0 && |factors| == |o.outputs[0].shape|
    && (forall k :: 0 <= k < |factors| ==> factors[k] > 0) && |o.kind.axis| <= |factors|
    && var shape := o.outputs[0].shape;
    n.name == o.name && n.tag == o.tag && n.attrs == o.attrs
    && n.kind.ComputeOp? && n.kind.reduceAxis == o.kind.reduceAxis && n.kind.body == o.kind.body
    && |n.kind.axis| == |o.kind.axis|
    && (forall k :: 0 <= k < |o.kind.axis| ==>
          n.kind.axis[k].dom == Some(Range(0, shape[k] / factors[k])) && n.kind.axis[k].v == o.kind.axis[k].v
          && n.kind.axis[k].iterType == o.kind.axis[k].iterType && n.kind.axis[k].threadTag == o.kind.axis[k].threadTag)
    && n.rootIterVars == n.kind.axis + n.kind.reduceAxis
    && n.outputs == Retiled(o.outputs, shape, UnionShape(shape, factors), factors)
  }

  /**
   * The checks of `decompStackPushHelper`, in its order: one factor per left variable
   * of the top level, every left variable erased from the leaves, one new axis per
   * level-0 split, and every level-0 split still among the relations.
   */
  function PushCheck(leaf: seq<IterVar>, rels: seq<Relation>, stack: seq<DecompLevel>, factors: seq<int>,
                     newAxis: seq<IterVar>): (r: Outcome<StageError>)
    requires |stack| > 0 && SplitsOnly(stack[0])
    ensures r.Fail? ==> r.error in {FactorCount, ReduceNotSupported, LeftVarMissing, AxisCount, RelationMissing}
  {
    var top, bottom := stack[|stack| - 1], stack[0];
    if |factors| != |top.leftIvars| then Fail(FactorCount)
    else if EraseLefts(leaf, top.leftIvars).Err? then Fail(EraseLefts(leaf, top.leftIvars).error)
    else if |bottom.splitRelations| != |newAxis| then Fail(AxisCount)
    else if RebaseAll(rels, bottom.splitRelations, newAxis).Err? then Fail(RelationMissing)
    else Pass
  }

  /**
   * The lists of a stage after `decompStackPushHelper` pushed a level with `factors`
   * onto `stack0`: the new level is one deeper, its pairs replace the top level's left
   * variables as leaves and are added to all variables, its splits are appended to the
   * relations, and level 0's splits are rebased onto `newAxis` in both places.
   */
  ghost predicate PushedLevel(leaf0: seq<IterVar>, all0: seq<IterVar>, rels0: seq<Relation>, stack0: seq<DecompLevel>,
                              factors: seq<int>, newAxis: seq<IterVar>,
                              leaf: seq<IterVar>, all: seq<IterVar>, rels: seq<Relation>, stack: seq<DecompLevel>)
    requires |stack0| > 0 && SplitsOnly(stack0[0])
  {
    var top, bottom := stack0[|stack0| - 1], stack0[0];
    PushCheck(leaf0, rels0, stack0, factors, newAxis).Pass?
    && FactorCheck(top.factors, factors, 0).Pass?
    && |stack| == |stack0| + 1
    && stack[..|stack0|] == stack0[0 := bottom.(splitRelations := RebasedSplits(bottom.splitRelations, newAxis))]
    && var e := stack[|stack0|];
    e.factors == factors && e.level == top.level + 1
    && |e.leftIvars| == |e.rightIvars| == |top.leftIvars|
    && (forall k :: 0 <= k < |top.leftIvars| ==> LeftRightOf(top.leftIvars[k], e.leftIvars[k], e.rightIvars[k], |stack0|))
    && e.splitRelations == LevelSplits(top.leftIvars, e.leftIvars, e.rightIvars, top.factors, factors)
    && leaf == EraseLefts(leaf0, top.leftIvars).value + Interleave(e.leftIvars, e.rightIvars)
    && all == all0 + Interleave(e.leftIvars, e.rightIvars)
    && rels == RebaseAll(rels0, bottom.splitRelations, newAxis).value + e.splitRelations
  }

  /**
   * The first half of `decompStackPushHelper` ran to the end: each left variable of the
   * top level of `stack0` is replaced in the leaves by its pair, named for the depth of
   * the new level, and the pairs are added to all variables.
   */
  ghost predicate PairsPlaced(leaf0: seq<IterVar>, all0: seq<IterVar>, stack0: seq<DecompLevel>, factors: seq<int>,
                              ls: seq<IterVar>, rs: seq<IterVar>, leaf: seq<IterVar>, all: seq<IterVar>)
    requires |stack0| > 0
  {
    var top := stack0[|stack0| - 1];
    |factors| == |top.leftIvars| <= |top.factors| && (forall k :: 0 <= k < |factors| ==> factors[k] > 0)
    && |ls| == |rs| == |factors|
    && (forall k :: 0 <= k < |ls| ==> LeftRightOf(top.leftIvars[k], ls[k], rs[k], |stack0|))
    && EraseLefts(leaf0, top.leftIvars).Ok? && leaf == EraseLefts(leaf0, top.leftIvars).value + Interleave(ls, rs)
    && all == all0 + Interleave(ls, rs)
  }

  /**
   * The lists of a stage after `decompStackPushHelper` stopped at a failed check `err`,
   * which updates the stage in place as it goes:
   *  - on the factor count, nothing has changed;
   *  - on a reduce or missing left variable `vs[done]`, the variables `vs[..done]` have
   *    been replaced by their pairs (see `LeftsSoFar`) and the stack is as it was;
   *  - on the axis count, every pair and split is in place and the new level pushed;
   *  - on a missing level-0 split `bottom.splitRelations[done]`, in addition the
   *    splits before it are rebased, in the relations and in level 0.
   */
  ghost predicate PushStopped(leaf0: seq<IterVar>, all0: seq<IterVar>, rels0: seq<Relation>, stack0: seq<DecompLevel>,
                              factors: seq<int>, newAxis: seq<IterVar>, err: StageError,
                              done: nat, erased: seq<IterVar>, ls: seq<IterVar>, rs: seq<IterVar>,
                              leaf: seq<IterVar>, all: seq<IterVar>, rels: seq<Relation>, stack: seq<DecompLevel>)
    requires |stack0| > 0 && SplitsOnly(stack0[0])
  {
    var top, bottom, vs := stack0[|stack0| - 1], stack0[0], stack0[|stack0| - 1].leftIvars;
    PushCheck(leaf0, rels0, stack0, factors, newAxis) == Fail(err)
    && if err == FactorCount then
      leaf == leaf0 && all == all0 && rels == rels0 && stack == stack0
    else if err in {ReduceNotSupported, LeftVarMissing} then
      done < |vs| && LeftsSoFar(vs, top.factors, factors, |stack0|, leaf0, all0, rels0, done, erased, leaf, all, rels, ls, rs)
      && (vs[done].iterType == CommReduce || vs[done] !in erased) && stack == stack0
    else
      PairsPlaced(leaf0, all0, stack0, factors, ls, rs, leaf, all)
      && var splits := LevelSplits(vs, ls, rs, top.factors, factors);
      var entry := DecompLevel(factors, top.level + 1, ls, rs, splits);
      if err == AxisCount then
        rels == rels0 + splits && stack == stack0 + [entry]
      else
        var olds := bottom.splitRelations;
        done < |olds| == |newAxis|
        && RebaseAll(rels0 + splits, olds[..done], newAxis[..done]) == Ok(rels) && olds[done] !in rels
        && stack == stack0[0 := bottom.(splitRelations := RebasedSplits(olds[..done], newAxis[..done]) + olds[done..])] + [entry]
  }

  /** A push that stops at left variable `vs[done]` leaves the lists `SplitLefts` built. */
  lemma StoppedInLefts(leaf0: seq<IterVar>, all0: seq<IterVar>, rels0: seq<Relation>, stack0: seq<DecompLevel>,
                       factors: seq<int>, newAxis: seq<IterVar>, err: StageError,
                       done: nat, erased: seq<IterVar>, ls: seq<IterVar>, rs: seq<IterVar>,
                       leaf: seq<IterVar>, all: seq<IterVar>, rels: seq<Relation>)
    requires |stack0| > 0 && SplitsOnly(stack0[0])
    requires var vs := stack0[|stack0| - 1].leftIvars;
      |factors| == |vs| && EraseLefts(leaf0, vs) == Err(err) && done < |vs|
      && LeftsSoFar(vs, stack0[|stack0| - 1].factors, factors, |stack0|, leaf0, all0, rels0, done, erased, leaf, all, rels, ls, rs)
      && (vs[done].iterType == CommReduce || vs[done] !in erased)
      && err == (if vs[done].iterType == CommReduce then ReduceNotSupported else LeftVarMissing)
    ensures PushStopped(leaf0, all0, rels0, stack0, factors, newAxis, err, done, erased, ls, rs, leaf, all, rels, stack0)
  {
  }

  /**
   * A push that stops after `SplitLefts`, at the axis count or at missing level-0 split
   * `done`, leaves the pairs and splits in place and the new level pushed.
   */
  lemma StoppedInRebase(leaf0: seq<IterVar>, all0: seq<IterVar>, rels0: seq<Relation>, stack0: seq<DecompLevel>,
                        factors: seq<int>, newAxis: seq<IterVar>, err: StageError,
                        done: nat, erased: seq<IterVar>, ls: seq<IterVar>, rs: seq<IterVar>,
                        leaf: seq<IterVar>, all: seq<IterVar>, rels: seq<Relation>, news: seq<Relation>,
                        stack: seq<DecompLevel>)
    requires |stack0| > 0 && SplitsOnly(stack0[0]) && PairsPlaced(leaf0, all0, stack0, factors, ls, rs, leaf, all)
    requires var top, olds := stack0[|stack0| - 1], stack0[0].splitRelations;
      var splits := LevelSplits(top.leftIvars, ls, rs, top.factors, factors);
      (|olds| != |newAxis| ==> err == AxisCount && rels == rels0 + splits && news == olds)
      && (|olds| == |newAxis| ==>
            err == RelationMissing && RebaseAll(rels0, olds, newAxis).Err? && done < |olds|
            && RebaseAll(rels0 + splits, olds[..done], newAxis[..done]) == Ok(rels)
            && olds[done] !in rels && news == RebasedSplits(olds[..done], newAxis[..done]) + olds[done..])
      && stack == stack0[0 := stack0[0].(splitRelations := news)] + [DecompLevel(factors, top.level + 1, ls, rs, splits)]
    ensures PushStopped(leaf0, all0, rels0, stack0, factors, newAxis, err, done, erased, ls, rs, leaf, all, rels, stack)
  {
    if err == AxisCount {
      assert stack0[0 := stack0[0].(splitRelations := news)] == stack0;
    }
  }

  /**
   * A push whose rebase finds every level-0 split has pushed the level of `PushedLevel`,
   * whose pairs are `ls` and `rs`.
   */
  lemma PushedAfterRebase(leaf0: seq<IterVar>, all0: seq<IterVar>, rels0: seq<Relation>, stack0: seq<DecompLevel>,
                          factors: seq<int>, newAxis: seq<IterVar>, ls: seq<IterVar>, rs: seq<IterVar>,
                          leaf: seq<IterVar>, all: seq<IterVar>, rels: seq<Relation>, news: seq<Relation>,
                          stack: seq<DecompLevel>)
    requires |stack0| > 0 && SplitsOnly(stack0[0]) && PairsPlaced(leaf0, all0, stack0, factors, ls, rs, leaf, all)
    requires FactorCheck(stack0[|stack0| - 1].factors, factors, 0).Pass?
    requires var top, olds := stack0[|stack0| - 1], stack0[0].splitRelations;
      var splits := LevelSplits(top.leftIvars, ls, rs, top.factors, factors);
      |olds| == |newAxis| && RebaseAll(rels0, olds, newAxis).Ok?
      && rels == RebaseAll(rels0, olds, newAxis).value + splits && news == RebasedSplits(olds, newAxis)
      && stack == stack0[0 := stack0[0].(splitRelations := news)] + [DecompLevel(factors, top.level + 1, ls, rs, splits)]
    ensures PushedLevel(leaf0, all0, rels0, stack0, factors, newAxis, leaf, all, rels, stack)
    ensures stack[|stack| - 1].rightIvars == rs && stack[|stack| - 1].leftIvars == ls
  {
  }

  /** Every level of a decomposition stack records only split relations. */
  predicate StackSplitsOnly(stack: seq<DecompLevel>)
  {
    forall k :: 0 <= k < |stack| ==> SplitsOnly(stack[k])
  }

  /** Rebasing level 0 and pushing a level of splits keeps a stack of splits only. */
  lemma PushedSplitsOnly(stack: seq<DecompLevel>, news: seq<Relation>, entry: DecompLevel)
    requires |stack| > 0 && StackSplitsOnly(stack)
    requires forall k :: 0 <= k < |news| ==> news[k].SplitRelation?
    requires SplitsOnly(entry)
    ensures StackSplitsOnly(stack[0 := stack[0].(splitRelations := news)] + [entry])
  {
    var st := stack[0 := stack[0].(splitRelations := news)] + [entry];
    forall k | 0 <= k < |st| ensures SplitsOnly(st[k]) {
      if 0 < k < |stack| {
        assert st[k] == stack[k];
      }
    }
  }

  /**
   * The lists of a stage after `decompStackPushHelper` (see `PushedLevel`), or the
   * failed check and the lists as far as it got (see `PushStopped`). The new variables
   * are fresh and keep the lists well formed.
   */
  method PushValues(leaf: seq<IterVar>, all: seq<IterVar>, rels: seq<Relation>, stack: seq<DecompLevel>,
                    factors: seq<int>, newAxis: seq<IterVar>)
    returns (r: Result<seq<IterVar>, StageError>, leaf': seq<IterVar>, all': seq<IterVar>, rels': seq<Relation>,
             stack': seq<DecompLevel>, ghost done: nat, ghost erased: seq<IterVar>, ls: seq<IterVar>,
             rs: seq<IterVar>)
    requires |stack| > 0 && StackSplitsOnly(stack)
    requires FactorCheck(stack[|stack| - 1].factors, factors, 0).Pass?
    ensures r.Ok? <==> PushCheck(leaf, rels, stack, factors, newAxis).Pass?
    ensures r.Err? ==> r.error == PushCheck(leaf, rels, stack, factors, newAxis).error
    ensures r.Ok? ==>
      PushedLevel(leaf, all, rels, stack, factors, newAxis, leaf', all', rels', stack')
      && StackSplitsOnly(stack')
      && r.value == stack'[|stack'| - 1].rightIvars
      && forall k :: 0 <= k < |r.value| ==> fresh(r.value[k]) && fresh(stack'[|stack'| - 1].leftIvars[k])
    ensures r.Err? ==>
      PushStopped(leaf, all, rels, stack, factors, newAxis, r.error, done, erased, ls, rs, leaf', all', rels', stack')
    ensures StackSplitsOnly(stack')
    ensures SpaceOk(all, leaf) ==> SpaceOk(all', leaf')
  {
    var top, bottom := stack[|stack| - 1], stack[0];
    leaf', all', rels', stack', done, erased, ls, rs := leaf, all, rels, stack, 0, leaf, [], [];
    if |factors| != |top.leftIvars| {
      return Err(FactorCount), leaf', all', rels', stack', done, erased, ls, rs;
    }
    ghost var avoid := Elems(all) + Outers(bottom.splitRelations);
    var c, ls1, rs1;
    c, leaf', all', rels', ls1, rs1, done, erased := SplitLefts(top.leftIvars, top.factors, factors, |stack|, leaf, all, rels, avoid);
    ls, rs := ls1, rs1;
    if c.Fail? {
      if SpaceOk(all, leaf) {
        DecompSpaceOk(all, leaf, top.leftIvars[..done], ls, rs);
      }
      StoppedInLefts(leaf, all, rels, stack, factors, newAxis, c.error, done, erased, ls, rs, leaf', all', rels');
      return Err(c.error), leaf', all', rels', stack', done, erased, ls, rs;
    }
    if SpaceOk(all, leaf) {
      DecompSpaceOk(all, leaf, top.leftIvars, ls, rs);
    }
    r, rels', stack', done := PushRebase(leaf, all, rels, stack, factors, newAxis, erased, ls, rs, leaf', all', rels');
  }

  /**
   * The second half of `decompStackPushHelper`, once the pairs `ls`, `rs` of the top
   * level's left variables are in the lists: the new level is pushed and level 0's
   * splits are rebased onto `newAxis` (see `PushedLevel`), or the lists as far as
   * the rebase got (see `PushStopped`).
   */
  method PushRebase(leaf: seq<IterVar>, all: seq<IterVar>, rels: seq<Relation>, stack: seq<DecompLevel>,
                    factors: seq<int>, newAxis: seq<IterVar>, ghost erased: seq<IterVar>, ls: seq<IterVar>, rs: seq<IterVar>,
                    leaf': seq<IterVar>, all': seq<IterVar>, rels': seq<Relation>)
    returns (r: Result<seq<IterVar>, StageError>, rels2: seq<Relation>, stack': seq<DecompLevel>, ghost done: nat)
    requires |stack| > 0 && StackSplitsOnly(stack)
    requires FactorCheck(stack[|stack| - 1].factors, factors, 0).Pass?
    requires PairsPlaced(leaf, all, stack, factors, ls, rs, leaf', all')
    requires var top := stack[|stack| - 1];
      (forall k :: 0 <= k < |rs| ==> rs[k] !in Outers(stack[0].splitRelations))
      && rels' == rels + LevelSplits(top.leftIvars, ls, rs, top.factors, factors)
    ensures r.Ok? <==> PushCheck(leaf, rels, stack, factors, newAxis).Pass?
    ensures r.Err? ==> r.error == PushCheck(leaf, rels, stack, factors, newAxis).error
    ensures r.Ok? ==>
      PushedLevel(leaf, all, rels, stack, factors, newAxis, leaf', all', rels2, stack')
      && r.value == rs && stack'[|stack'| - 1].rightIvars == rs && stack'[|stack'| - 1].leftIvars == ls
    ensures r.Err? ==>
      PushStopped(leaf, all, rels, stack, factors, newAxis, r.error, done, erased, ls, rs, leaf', all', rels2, stack')
    ensures StackSplitsOnly(stack')
  {
    var top, bottom := stack[|stack| - 1], stack[0];
    var splits := rels'[|rels|..];
    assert splits == LevelSplits(top.leftIvars, ls, rs, top.factors, factors);
    NewSplitsAvoid(bottom.splitRelations, top.leftIvars, ls, rs, top.factors, factors);
    if |bottom.splitRelations| == |newAxis| {
      RebaseAllAppend(rels, splits, bottom.splitRelations, newAxis);
    }
    var rb, news;
    rb, rels2, news, done := RebaseBottom(rels', bottom.splitRelations, newAxis);
    var entry := DecompLevel(factors, top.level + 1, ls, rs, splits);
    PushedSplitsOnly(stack, news, entry);
    stack' := stack[0 := bottom.(splitRelations := news)] + [entry];
    if rb.Err? {
      StoppedInRebase(leaf, all, rels, stack, factors, newAxis, rb.error, done, erased, ls, rs, leaf', all', rels2, news, stack');
      return Err(rb.error), rels2, stack', done;
    }
    PushedAfterRebase(leaf, all, rels, stack, factors, newAxis, ls, rs, leaf', all', rels2, news, stack');
    return Ok(rs), rels2, stack', done;
  }

  /** Erasing leaves and appending new pairs to both lists keeps them well formed. */
  lemma DecompSpaceOk(all: seq<IterVar>, leaf: seq<IterVar>, vs: seq<IterVar>, ls: seq<IterVar>, rs: seq<IterVar>)
    requires SpaceOk(all, leaf) && EraseLefts(leaf, vs).Ok? && |ls| == |rs| && Distinct(Interleave(ls, rs))
    requires forall k :: 0 <= k < |ls| ==> ls[k] !in all && rs[k] !in all
    ensures SpaceOk(all + Interleave(ls, rs), EraseLefts(leaf, vs).value + Interleave(ls, rs))
  {
    var erased, added := EraseLefts(leaf, vs).value, Interleave(ls, rs);
    EraseLeftsDistinct(leaf, vs);
    forall x | x in added ensures x !in all {
      var j :| 0 <= j < |added| && added[j] == x;
      assert x == ls[j / 2] || x == rs[j / 2];
    }
    DistinctAppend(all, added);
    DistinctAppend(erased, added);
  }

  /** The outer parts of split relations. */
  function Outers(rels: seq<Relation>): (r: set<IterVar>)
    requires forall k :: 0 <= k < |rels| ==> rels[k].SplitRelation?
    ensures forall k :: 0 <= k < |rels| ==> rels[k].outer in r
  {
    set k | 0 <= k < |rels| :: rels[k].outer
  }

  /** The parents of split relations. */
  function Parents(rels: seq<Relation>): (r: set<IterVar>)
    requires forall k :: 0 <= k < |rels| ==> rels[k].SplitRelation?
    ensures forall k :: 0 <= k < |rels| ==> rels[k].parent in r
  {
    set k | 0 <= k < |rels| :: rels[k].parent
  }

  /**
   * With new axes that are none of the level-0 parents, the checks of
   * `decompStackPushHelper` pass exactly when the factor count matches, the left
   * variables can be erased, there is one axis per level-0 split, and those splits,
   * counted with repetition, are among the relations.
   */
  lemma PushCheckPasses(leaf: seq<IterVar>, rels: seq<Relation>, stack: seq<DecompLevel>, factors: seq<int>,
                        newAxis: seq<IterVar>)
    requires |stack| > 0 && SplitsOnly(stack[0])
    requires forall k :: 0 <= k < |newAxis| ==> newAxis[k] !in Parents(stack[0].splitRelations)
    ensures PushCheck(leaf, rels, stack, factors, newAxis).Pass? <==>
      |factors| == |stack[|stack| - 1].leftIvars| && EraseLefts(leaf, stack[|stack| - 1].leftIvars).Ok?
      && |stack[0].splitRelations| == |newAxis| && multiset(stack[0].splitRelations) <= multiset(rels)
  {
    var olds := stack[0].splitRelations;
    if |olds| == |newAxis| {
      RebaseAllOk(rels, olds, newAxis);
    }
  }

  /**
   * Once the checks of `decompose` pass, with new axes that are none of the level-0
   * parents, `decompose` succeeds exactly when `decompStackPushHelper` does.
   */
  lemma DecomposeOkPush(op: Option<Operation>, leaf: seq<IterVar>, rels: seq<Relation>, stack: seq<DecompLevel>,
                        factors: seq<int>, newAxis: seq<IterVar>)
    requires DecomposeCheck(op, stack, factors).Pass? && SplitsOnly(stack[0])
    requires |newAxis| == |op.value.kind.axis|
    requires forall k :: 0 <= k < |newAxis| ==> newAxis[k] !in Parents(stack[0].splitRelations)
    ensures DecomposeOk(op, leaf, rels, stack, factors) <==> PushCheck(leaf, rels, stack, factors, newAxis).Pass?
  {
    PushCheckPasses(leaf, rels, stack, factors, newAxis);
  }

  /** The splits of a new level, whose outer parts are new, are none of the old splits. */
  lemma NewSplitsAvoid(olds: seq<Relation>, vs: seq<IterVar>, ls: seq<IterVar>, rs: seq<IterVar>,
                       top: seq<int>, factors: seq<int>)
    requires |ls| == |rs| <= |vs| && |ls| <= |top| && |ls| <= |factors|
    requires forall k :: 0 <= k < |ls| ==> factors[k] > 0
    requires forall k :: 0 <= k < |olds| ==> olds[k].SplitRelation?
    requires forall k :: 0 <= k < |rs| ==> rs[k] !in Outers(olds)
    ensures forall k :: 0 <= k < |olds| ==> olds[k] !in LevelSplits(vs, ls, rs, top, factors)
  {
  }

  // ---------------------------------------------------------------- the stage

  /** A schedule stage: one operation's loop nest and how it is attached. */
  class Stage {
    var op: Option<Operation>
    var originOp: Option<Operation>
    var allIterVars: seq<IterVar>
    var leafIterVars: seq<IterVar>
    var envThreads: seq<IterVar>
    var relations: seq<Relation>
    var iterVarAttrs: map<IterVar, IterVarAttr>
    var attachType: AttachType
    var attachIvar: Option<IterVar>
    var attachStage: Option<Stage>
    var group: Option<Stage>
    var numChildStages: int
    var isOutput: bool
    var doubleBuffer: bool
    var decompStack: seq<DecompLevel>
    /** A bound for walks along group links: a stage's group is strictly shallower. */
    ghost var depth: nat

    /** The leaf and variable lists are well formed. */
    ghost predicate IterSpaceOk()
      reads this
    {
      SpaceOk(allIterVars, leafIterVars)
    }

    /** A stage for `op`: every root variable, and all but the opaque ones as leaves. */
    constructor (op: Operation)
      ensures this.op == Some(op) && originOp == Some(op)
      ensures allIterVars == op.rootIterVars && leafIterVars == NonOpaque(op.rootIterVars)
      ensures relations == [] && envThreads == [] && iterVarAttrs == map[] && decompStack == []
      ensures attachType == GroupRoot && attachIvar == None && attachStage == None
      ensures group == None && numChildStages == 0 && !isOutput && !doubleBuffer
      ensures Distinct(op.rootIterVars) ==> IterSpaceOk()
    {
      var clean := CleanLeaves(op.rootIterVars);
      this.op := Some(op);
      originOp := Some(op);
      allIterVars := op.rootIterVars;
      leafIterVars := clean;
      relations := [];
      envThreads := [];
      iterVarAttrs := map[];
      attachType := GroupRoot;
      attachIvar := None;
      attachStage := None;
      group := None;
      numChildStages := 0;
      isOutput := false;
      doubleBuffer := false;
      decompStack := [];
      depth := 0;
      new;
      NonOpaqueElems(op.rootIterVars, |op.rootIterVars|);
      assert op.rootIterVars[..|op.rootIterVars|] == op.rootIterVars;
    }

    /**
     * A TSL stage for `op`: each non-opaque root variable is split once into a left and
     * a right variable, which replace it as leaves, and the decomposition stack starts
     * with one level whose factors are the element shape of output 0.
     */
    constructor Tsl(op: Operation)
      requires |op.outputs| > 0
      ensures this.op == Some(op) && originOp == Some(op)
      ensures |decompStack| == 1 && decompStack[0].level == 0 && decompStack[0].factors == op.outputs[0].elemShape
      ensures var e := decompStack[0];
        relations == e.splitRelations
        && LevelZeroSoFar(op.rootIterVars, |op.rootIterVars|, allIterVars, leafIterVars, relations, e.leftIvars, e.rightIvars)
      ensures envThreads == [] && iterVarAttrs == map[]
      ensures attachType == GroupRoot && attachIvar == None && attachStage == None
      ensures group == None && numChildStages == 0 && !isOutput && !doubleBuffer
      ensures Distinct(op.rootIterVars) ==> IterSpaceOk()
      ensures DecompOk()
    {
      var all, leaf, rels, entry := LevelZero(op.rootIterVars, op.outputs[0].elemShape);
      this.op := Some(op);
      originOp := Some(op);
      allIterVars := all;
      leafIterVars := leaf;
      relations := rels;
      envThreads := [];
      iterVarAttrs := map[];
      attachType := GroupRoot;
      attachIvar := None;
      attachStage := None;
      group := None;
      numChildStages := 0;
      isOutput := false;
      doubleBuffer := false;
      decompStack := [entry];
      depth := 0;
    }

    /** An empty stage, as the schedule creates for a new group. */
    constructor Group()
      ensures op == None && originOp == None
      ensures allIterVars == [] && leafIterVars == [] && relations == [] && envThreads == []
      ensures iterVarAttrs == map[] && decompStack == []
      ensures attachType == GroupRoot && attachIvar == None && attachStage == None
      ensures group == None && numChildStages == 0 && !isOutput && !doubleBuffer
    {
      op := None;
      originOp := None;
      allIterVars := [];
      leafIterVars := [];
      relations := [];
      envThreads := [];
      iterVarAttrs := map[];
      attachType := GroupRoot;
      attachIvar := None;
      attachStage := None;
      group := None;
      numChildStages := 0;
      isOutput := false;
      doubleBuffer := false;
      decompStack := [];
      depth := 0;
    }

    /** A field-by-field copy of `s`. */
    constructor Copy(s: Stage)
      ensures op == s.op && originOp == s.originOp
      ensures allIterVars == s.allIterVars && leafIterVars == s.leafIterVars
      ensures relations == s.relations && envThreads == s.envThreads
      ensures iterVarAttrs == s.iterVarAttrs && decompStack == s.decompStack
      ensures attachType == s.attachType && attachIvar == s.attachIvar && attachStage == s.attachStage
      ensures group == s.group && numChildStages == s.numChildStages
      ensures isOutput == s.isOutput && doubleBuffer == s.doubleBuffer && depth == s.depth
    {
      op := s.op;
      originOp := s.originOp;
      allIterVars := s.allIterVars;
      leafIterVars := s.leafIterVars;
      relations := s.relations;
      envThreads := s.envThreads;
      iterVarAttrs := s.iterVarAttrs;
      attachType := s.attachType;
      attachIvar := s.attachIvar;
      attachStage := s.attachStage;
      group := s.group;
      numChildStages := s.numChildStages;
      isOutput := s.isOutput;
      doubleBuffer := s.doubleBuffer;
      decompStack := s.decompStack;
      depth := s.depth;
    }

    /**
     * Splits leaf `parent` into new variables `outer` and `inner` that take its slot,
     * in that order; records them in `allIterVars` and one split relation.
     */
    method SplitHelper(parent: IterVar, factor: Option<int>, nparts: Option<int>)
      returns (r: Result<(IterVar, IterVar), StageError>)
      modifies this`allIterVars, this`leafIterVars, this`relations
      ensures var c := SplitCheck(old(allIterVars), old(leafIterVars), parent);
        (r.Ok? <==> c.Ok?) && (r.Err? ==> r.error == c.error)
      ensures r.Err? ==> allIterVars == old(allIterVars) && leafIterVars == old(leafIterVars)
                         && relations == old(relations)
      ensures r.Ok? ==>
        var outer, inner := r.value.0, r.value.1;
        var pos := FirstIndex(old(leafIterVars), parent);
        fresh(outer) && fresh(inner) && fresh(outer.v) && fresh(inner.v) && outer != inner
        && outer.v.name == parent.v.name + ".outer" && inner.v.name == parent.v.name + ".inner"
        && outer.v.dtype == parent.v.dtype && inner.v.dtype == parent.v.dtype
        && outer.iterType == parent.iterType && inner.iterType == parent.iterType
        && outer.dom == None && inner.dom == None
        && pos < |old(leafIterVars)|
        && leafIterVars == SplitLeaves(old(leafIterVars), pos, outer, inner)
        && allIterVars == old(allIterVars) + [outer, inner]
        && relations == old(relations) + [SplitRelation(parent, outer, inner, factor, nparts)]
      ensures old(IterSpaceOk()) ==> IterSpaceOk()
      ensures r.Ok? && old(IterSpaceOk()) ==> parent !in leafIterVars
    {
      if !Splittable(parent.iterType) {
        return Err(CannotSplit);
      }
      var ov := new Var(parent.v.name + ".outer", parent.v.dtype);
      var iv := new Var(parent.v.name + ".inner", parent.v.dtype);
      var outer := new IterVar(None, ov, parent.iterType, "");
      var inner := new IterVar(None, iv, parent.iterType, "");
      var found := FindLeafVar(allIterVars, leafIterVars, parent);
      if found.Err? {
        return Err(found.error);
      }
      var pos := found.value;
      if IterSpaceOk() {
        SplitKeepsSpace(allIterVars, leafIterVars, pos, outer, inner);
      }
      relations := relations + [SplitRelation(parent, outer, inner, factor, nparts)];
      allIterVars := allIterVars + [outer, inner];
      leafIterVars := SplitLeaves(leafIterVars, pos, outer, inner);
      return Ok((outer, inner));
    }

    /** `split(parent, factor)`: the inner part has `factor` iterations. */
    method Split(parent: IterVar, factor: int) returns (r: Result<(IterVar, IterVar), StageError>)
      modifies this`allIterVars, this`leafIterVars, this`relations
      ensures var c := SplitCheck(old(allIterVars), old(leafIterVars), parent);
        (r.Ok? <==> c.Ok?) && (r.Err? ==> r.error == c.error)
      ensures r.Ok? ==> relations == old(relations) + [SplitRelation(parent, r.value.0, r.value.1, Some(factor), None)]
      ensures r.Ok? ==> fresh(r.value.0) && fresh(r.value.1) && r.value.0 != r.value.1
                        && leafIterVars == SplitLeaves(old(leafIterVars), FirstIndex(old(leafIterVars), parent), r.value.0, r.value.1)
                        && allIterVars == old(allIterVars) + [r.value.0, r.value.1]
      ensures r.Ok? ==> r.value.0.iterType == parent.iterType && r.value.1.iterType == parent.iterType
      ensures r.Err? ==> allIterVars == old(allIterVars) && leafIterVars == old(leafIterVars)
                         && relations == old(relations)
      ensures old(IterSpaceOk()) ==> IterSpaceOk()
    {
      r := SplitHelper(parent, Some(factor), None);
    }

    /** `split_by_nparts(parent, nparts)`: the outer part has `nparts` iterations. */
    method SplitByNParts(parent: IterVar, nparts: int) returns (r: Result<(IterVar, IterVar), StageError>)
      modifies this`allIterVars, this`leafIterVars, this`relations
      ensures var c := SplitCheck(old(allIterVars), old(leafIterVars), parent);
        (r.Ok? <==> c.Ok?) && (r.Err? ==> r.error == c.error)
      ensures r.Ok? ==> relations == old(relations) + [SplitRelation(parent, r.value.0, r.value.1, None, Some(nparts))]
      ensures r.Ok? ==> fresh(r.value.0) && fresh(r.value.1) && r.value.0 != r.value.1
                        && leafIterVars == SplitLeaves(old(leafIterVars), FirstIndex(old(leafIterVars), parent), r.value.0, r.value.1)
                        && allIterVars == old(allIterVars) + [r.value.0, r.value.1]
      ensures old(IterSpaceOk()) ==> IterSpaceOk()
    {
      r := SplitHelper(parent, None, Some(nparts));
    }

    /**
     * Fuses neighbouring leaves `outer` and `inner` (in either order) into one new
     * variable of the larger kind and the wider integer type, named after the
     * arguments as given; the relation records the pair in leaf order.
     */
    method Fuse(outer: IterVar, inner: IterVar) returns (r: Result<IterVar, StageError>)
      modifies this`allIterVars, this`leafIterVars, this`relations
      ensures var c := FuseCheck(old(allIterVars), old(leafIterVars), outer, inner);
        (r.Ok? <==> c.Ok?) && (r.Err? ==> r.error == c.error)
      ensures r.Err? ==> allIterVars == old(allIterVars) && leafIterVars == old(leafIterVars)
                         && relations == old(relations)
      ensures r.Ok? ==>
        var fused, p := r.value, FuseCheck(old(allIterVars), old(leafIterVars), outer, inner).value;
        fresh(fused) && fresh(fused.v)
        && fused.v.name == FusedName(outer, inner)
        && fused.v.dtype == MatchFrom([inner.v.dtype, outer.v.dtype], 0, -1).value
        && fused.iterType == MaxType(outer.iterType, inner.iterType)
        && fused.dom == None && fused.threadTag == ""
        && p + 1 < |old(leafIterVars)|
        && leafIterVars == FuseLeaves(old(leafIterVars), p, fused)
        && allIterVars == old(allIterVars) + [fused]
        && relations == old(relations) + [FuseRelation(old(leafIterVars)[p], old(leafIterVars)[p + 1], fused)]
      ensures old(IterSpaceOk()) ==> IterSpaceOk()
      ensures r.Ok? ==> forall v :: v in leafIterVars ==> v == r.value || v in old(leafIterVars)
      ensures r.Ok? && old(IterSpaceOk()) ==> outer !in leafIterVars && inner !in leafIterVars && r.value in leafIterVars
    {
      if !Splittable(outer.iterType) || !Splittable(inner.iterType) {
        return Err(CannotFuse);
      }
      var iterType := outer.iterType;
      if Ir.Rank(inner.iterType) > Ir.Rank(iterType) {
        iterType := inner.iterType;
      }
      var name := outer.v.name + "." + inner.v.name + ".fused";
      var dt := MatchDataType([inner.v.dtype, outer.v.dtype]);
      if dt.Err? {
        return Err(dt.error);
      }
      var fv := new Var(name, dt.value);
      var fused := new IterVar(None, fv, iterType, "");
      var p := FuseSlot(allIterVars, leafIterVars, outer, inner);
      if p.Err? {
        return Err(p.error);
      }
      var first, second := leafIterVars[p.value], leafIterVars[p.value + 1];
      if IterSpaceOk() {
        FuseKeepsSpace(allIterVars, leafIterVars, p.value, fused);
      }
      FuseLeavesFrom(leafIterVars, p.value, fused);
      relations := relations + [FuseRelation(first, second, fused)];
      allIterVars := allIterVars + [fused];
      leafIterVars := FuseLeaves(leafIterVars, p.value, fused);
      return Ok(fused);
    }

    /**
     * One step of `fuse(axes)`: the fuse of `fused` with `axis`, its relation returned
     * alongside.
     */
    method FuseNext(fused: IterVar, axis: IterVar) returns (r: Result<IterVar, StageError>, ghost rel: Relation)
      modifies this`allIterVars, this`leafIterVars, this`relations
      ensures var c := FuseCheck(old(allIterVars), old(leafIterVars), fused, axis);
        (r.Ok? <==> c.Ok?) && (r.Err? ==> r.error == c.error)
      ensures r.Err? ==> allIterVars == old(allIterVars) && leafIterVars == old(leafIterVars)
                         && relations == old(relations)
      ensures r.Ok? ==> fresh(r.value) && fresh(r.value.v)
                        && FuseStep(old(allIterVars), old(leafIterVars), fused, axis,
                                    r.value, allIterVars, leafIterVars, rel)
                        && relations == old(relations) + [rel]
      ensures r.Ok? ==> forall v :: v in leafIterVars ==> v == r.value || v in old(leafIterVars)
      ensures old(IterSpaceOk()) ==> IterSpaceOk()
      ensures r.Ok? && old(IterSpaceOk()) ==> fused !in leafIterVars && axis !in leafIterVars && r.value in leafIterVars
    {
      ghost var leaf0 := leafIterVars;
      r := Fuse(fused, axis);
      if r.Ok? {
        var p := FuseCheck(old(allIterVars), leaf0, fused, axis).value;
        rel := FuseRelation(leaf0[p], leaf0[p + 1], r.value);
      } else {
        rel := SingletonRelation(fused);
      }
    }

    /**
     * One turn of the loop of `fuse(axes)`: fuses the variable built so far with
     * `axes[i]` and extends the chain of steps by it, or fails with that step's error
     * and changes nothing.
     */
    method FuseAllStep(axes: seq<IterVar>, i: nat, fused: IterVar, ghost fs: seq<IterVar>,
                       ghost alls: seq<seq<IterVar>>, ghost leaves: seq<seq<IterVar>>,
                       ghost rels: seq<Relation>, ghost base: seq<Relation>, ghost spaceOk: bool)
      returns (r: Result<IterVar, StageError>, ghost fs': seq<IterVar>, ghost alls': seq<seq<IterVar>>,
               ghost leaves': seq<seq<IterVar>>, ghost rels': seq<Relation>)
      modifies this`allIterVars, this`leafIterVars, this`relations
      requires 1 <= i < |axes| && |fs| == i && fused == fs[i - 1]
      requires FuseChain(axes, fs, alls, leaves, rels)
      requires allIterVars == alls[i - 1] && leafIterVars == leaves[i - 1] && relations == base + rels
      requires spaceOk ==> IterSpaceOk()
      requires spaceOk && i >= 2 ==> fused in leafIterVars && forall k :: 0 <= k < i ==> axes[k] !in leafIterVars
      ensures r.Err? ==>
        var c := FuseCheck(alls[i - 1], leaves[i - 1], fs[i - 1], axes[i]);
        c.Err? && r.error == c.error
        && fs' == fs && alls' == alls && leaves' == leaves && rels' == rels
        && allIterVars == old(allIterVars) && leafIterVars == old(leafIterVars) && relations == old(relations)
      ensures r.Ok? ==>
        fresh(r.value) && fresh(r.value.v)
        && |fs'| == i + 1 && fs'[..i] == fs && fs'[i] == r.value
        && FuseChain(axes, fs', alls', leaves', rels')
        && alls'[0] == alls[0] && leaves'[0] == leaves[0]
        && allIterVars == alls'[i] && leafIterVars == leaves'[i] && relations == base + rels'
        && |leafIterVars| == |old(leafIterVars)| - 1 && |allIterVars| == |old(allIterVars)| + 1
        && |relations| == |old(relations)| + 1
      ensures spaceOk ==> IterSpaceOk()
      ensures r.Ok? && spaceOk ==>
        r.value in leafIterVars && forall k :: 0 <= k <= i ==> axes[k] !in leafIterVars
    {
      ghost var before := leafIterVars;
      ghost var rel;
      r, rel := FuseNext(fused, axes[i]);
      if r.Err? {
        return r, fs, alls, leaves, rels;
      }
      if spaceOk {
        AxesLeave(axes, i, fused, before, leafIterVars, r.value);
      }
      ChainSnoc(axes, fs, alls, leaves, rels, r.value, allIterVars, leafIterVars, rel);
      fs', alls', leaves', rels' := fs + [r.value], alls + [allIterVars], leaves + [leafIterVars], rels + [rel];
      assert fs'[..i] == fs;
    }

    /**
     * `fuse(axes)`: fuses the axes left to right into one variable; with no axis, a
     * fresh one-iteration variable becomes the outermost leaf. The ghost results record
     * the chain of steps: the variables fused so far, the lists after each step and the
     * relations recorded. On a failure the steps before it stay in place.
     */
    method FuseAll(axes: seq<IterVar>)
      returns (r: Result<IterVar, StageError>, ghost fs: seq<IterVar>, ghost alls: seq<seq<IterVar>>,
               ghost leaves: seq<seq<IterVar>>, ghost rels: seq<Relation>)
      modifies this`allIterVars, this`leafIterVars, this`relations
      ensures |axes| == 0 ==>
        r.Ok? && fresh(r.value) && fresh(r.value.v)
        && r.value.dom == Some(Range(0, 1)) && r.value.iterType == DataPar
        && r.value.v.name == "singleton" && r.value.v.dtype == Int32()
        && leafIterVars == [r.value] + old(leafIterVars)
        && allIterVars == old(allIterVars) + [r.value]
        && relations == old(relations) + [SingletonRelation(r.value)]
      ensures |axes| == 1 ==> r == Ok(axes[0]) && leafIterVars == old(leafIterVars)
                              && allIterVars == old(allIterVars) && relations == old(relations)
      ensures |axes| >= 1 ==>
        FuseChain(axes, fs, alls, leaves, rels)
        && alls[0] == old(allIterVars) && leaves[0] == old(leafIterVars)
        && allIterVars == alls[|fs| - 1] && leafIterVars == leaves[|fs| - 1]
        && relations == old(relations) + rels
        && (forall k :: 1 <= k < |fs| ==> fresh(fs[k]) && fresh(fs[k].v))
        && (r.Ok? <==> |fs| == |axes|)
        && (r.Ok? ==> r.value == fs[|fs| - 1])
        && (r.Err? ==> var c := FuseCheck(alls[|fs| - 1], leaves[|fs| - 1], fs[|fs| - 1], axes[|fs|]);
                       c.Err? && r.error == c.error)
      ensures |axes| >= 2 && r.Ok? ==>
        fresh(r.value) && |leafIterVars| == |old(leafIterVars)| - (|axes| - 1)
        && |allIterVars| == |old(allIterVars)| + (|axes| - 1)
        && |relations| == |old(relations)| + (|axes| - 1)
      ensures |axes| >= 2 && r.Ok? && old(IterSpaceOk()) ==>
        r.value in leafIterVars && forall k :: 0 <= k < |axes| ==> axes[k] !in leafIterVars
      ensures old(IterSpaceOk()) ==> IterSpaceOk()
    {
      if |axes| != 0 {
        r, fs, alls, leaves, rels := FuseFrom(axes);
        return;
      }
      fs, alls, leaves, rels := [], [], [], [];
      var singleton := FuseNone();
      return Ok(singleton), fs, alls, leaves, rels;
    }

    /** `fuse` of one or more axes: the chain of `Fuse` calls from the first axis on. */
    method FuseFrom(axes: seq<IterVar>)
      returns (r: Result<IterVar, StageError>, ghost fs: seq<IterVar>, ghost alls: seq<seq<IterVar>>,
               ghost leaves: seq<seq<IterVar>>, ghost rels: seq<Relation>)
      requires |axes| >= 1
      modifies this`allIterVars, this`leafIterVars, this`relations
      ensures |axes| == 1 ==> r == Ok(axes[0]) && leafIterVars == old(leafIterVars)
                              && allIterVars == old(allIterVars) && relations == old(relations)
      ensures FuseChain(axes, fs, alls, leaves, rels)
        && alls[0] == old(allIterVars) && leaves[0] == old(leafIterVars)
        && allIterVars == alls[|fs| - 1] && leafIterVars == leaves[|fs| - 1]
        && relations == old(relations) + rels
        && (forall k :: 1 <= k < |fs| ==> fresh(fs[k]) && fresh(fs[k].v))
        && (r.Ok? <==> |fs| == |axes|)
        && (r.Ok? ==> r.value == fs[|fs| - 1])
        && (r.Err? ==> var c := FuseCheck(alls[|fs| - 1], leaves[|fs| - 1], fs[|fs| - 1], axes[|fs|]);
                       c.Err? && r.error == c.error)
      ensures |axes| >= 2 && r.Ok? ==>
        fresh(r.value) && |leafIterVars| == |old(leafIterVars)| - (|axes| - 1)
        && |allIterVars| == |old(allIterVars)| + (|axes| - 1)
        && |relations| == |old(relations)| + (|axes| - 1)
      ensures |axes| >= 2 && r.Ok? && old(IterSpaceOk()) ==>
        r.value in leafIterVars && forall k :: 0 <= k < |axes| ==> axes[k] !in leafIterVars
      ensures old(IterSpaceOk()) ==> IterSpaceOk()
    {
      rels := [];
      var fused := axes[0];
      fs, alls, leaves := [fused], [allIterVars], [leafIterVars];
      var i := 1;
      while i < |axes|
        invariant 1 <= i <= |axes|
        invariant |fs| == i && fused == fs[i - 1]
        invariant FuseChain(axes, fs, alls, leaves, rels)
        invariant alls[0] == old(allIterVars) && leaves[0] == old(leafIterVars)
        invariant allIterVars == alls[i - 1] && leafIterVars == leaves[i - 1]
        invariant relations == old(relations) + rels
        invariant forall k :: 1 <= k < i ==> fresh(fs[k]) && fresh(fs[k].v)
        invariant i == 1 ==> fused == axes[0] && leafIterVars == old(leafIterVars)
                             && allIterVars == old(allIterVars) && relations == old(relations)
        invariant i >= 2 ==> fresh(fused)
        invariant |leafIterVars| == |old(leafIterVars)| - (i - 1)
        invariant |allIterVars| == |old(allIterVars)| + (i - 1)
        invariant |relations| == |old(relations)| + (i - 1)
        invariant old(IterSpaceOk()) ==> IterSpaceOk()
        invariant old(IterSpaceOk()) && i >= 2 ==>
          fused in leafIterVars && forall k :: 0 <= k < i ==> axes[k] !in leafIterVars
      {
        var step;
        step, fs, alls, leaves, rels := FuseAllStep(axes, i, fused, fs, alls, leaves, rels, old(relations), old(IterSpaceOk()));
        if step.Err? {
          return Err(step.error), fs, alls, leaves, rels;
        }
        fused := step.value;
        i := i + 1;
      }
      return Ok(fused), fs, alls, leaves, rels;
    }

    /** `fuse` of no axis: a fresh one-iteration variable becomes the outermost leaf. */
    method FuseNone() returns (singleton: IterVar)
      modifies this`allIterVars, this`leafIterVars, this`relations
      ensures fresh(singleton) && fresh(singleton.v)
        && singleton.dom == Some(Range(0, 1)) && singleton.iterType == DataPar
        && singleton.v.name == "singleton" && singleton.v.dtype == Int32()
        && leafIterVars == [singleton] + old(leafIterVars)
        && allIterVars == old(allIterVars) + [singleton]
        && relations == old(relations) + [SingletonRelation(singleton)]
      ensures old(IterSpaceOk()) ==> IterSpaceOk()
    {
      var sv := new Var("singleton", Int32());
      singleton := new IterVar(Some(Range(0, 1)), sv, DataPar, "");
      relations := relations + [SingletonRelation(singleton)];
      allIterVars := allIterVars + [singleton];
      leafIterVars := [singleton] + leafIterVars;
    }

    /**
     * Reorders the named leaves: after the checks, their slots, taken in increasing
     * position order, receive `order`; every other slot is untouched.
     */
    method Reorder(order: seq<IterVar>) returns (r: Outcome<StageError>)
      modifies this`leafIterVars
      ensures var spec := ReorderSpec(allIterVars, old(leafIterVars), order);
        (r.Pass? <==> spec.Ok?) && (r.Pass? ==> leafIterVars == spec.value)
        && (r.Fail? ==> r.error == spec.error && leafIterVars == old(leafIterVars))
      ensures old(IterSpaceOk()) ==> IterSpaceOk()
    {
      var c := CheckOrderLoop(order);
      if c.Fail? {
        return c;
      }
      var p := LeafPositions(allIterVars, leafIterVars, order);
      if p.Err? {
        return Fail(p.error);
      }
      var leaf := leafIterVars;
      assert NamedAt(leaf, p.value, order);
      leafIterVars := ApplyOrder(leaf, p.value, order);
      if old(IterSpaceOk()) {
        ReorderedPermutes(leaf, p.value, order);
        forall v | v in leafIterVars ensures v in allIterVars {
          assert v in multiset(leafIterVars);
        }
      }
      return Pass;
    }

    /**
     * The two splits of `tile`: `x` by `xFactor`, then `y` by `yFactor`. When `x`
     * precedes `y`, `y`'s slot has moved one place on by the time it is split.
     */
    method TileSplits(x: IterVar, y: IterVar, xFactor: int, yFactor: int)
      returns (r: Result<(IterVar, IterVar, IterVar, IterVar), StageError>)
      modifies this`allIterVars, this`leafIterVars, this`relations
      ensures old(IterSpaceOk()) ==>
        (r.Ok? <==> Splittable(x.iterType) && Splittable(y.iterType)
                    && x in old(leafIterVars) && y in old(leafIterVars) && x != y)
      ensures r.Ok? ==>
        var xo, yo, xi, yi := r.value.0, r.value.1, r.value.2, r.value.3;
        fresh(xo) && fresh(yo) && fresh(xi) && fresh(yi)
        && xo != xi && yo != yi && xo != yo && xo != yi && xi != yo && xi != yi
        && xo.iterType == xi.iterType == x.iterType && yo.iterType == yi.iterType == y.iterType
        && xo in leafIterVars && xi in leafIterVars && yo in leafIterVars && yi in leafIterVars
      ensures r.Ok? ==>
        var xo, yo, xi, yi := r.value.0, r.value.1, r.value.2, r.value.3;
        relations == old(relations) + [SplitRelation(x, xo, xi, Some(xFactor), None)]
                                    + [SplitRelation(y, yo, yi, Some(yFactor), None)]
        && allIterVars == old(allIterVars) + [xo, xi] + [yo, yi]
      ensures r.Ok? && old(IterSpaceOk()) && FirstIndex(old(leafIterVars), x) < FirstIndex(old(leafIterVars), y) ==>
        var px, py := FirstIndex(old(leafIterVars), x), FirstIndex(old(leafIterVars), y);
        var xo, yo, xi, yi := r.value.0, r.value.1, r.value.2, r.value.3;
        leafIterVars == TwoSlots(old(leafIterVars), px, py, xo, xi, yo, yi)
      ensures old(IterSpaceOk()) ==> IterSpaceOk()
    {
      ghost var leaf0 := leafIterVars;
      var sx := Split(x, xFactor);
      if sx.Err? {
        return Err(sx.error);
      }
      var xo, xi := sx.value.0, sx.value.1;
      var sy := TileSecond(x, y, yFactor, xo, xi, leaf0, old(IterSpaceOk()));
      if sy.Err? {
        return Err(sy.error);
      }
      return Ok((xo, sy.value.0, xi, sy.value.1));
    }

    /**
     * The second split of `tile`, once `x` is split into `xo` and `xi` in the leaves
     * `leaf0`: splits `y` by `yFactor`.
     */
    method TileSecond(x: IterVar, y: IterVar, yFactor: int, xo: IterVar, xi: IterVar,
                      ghost leaf0: seq<IterVar>, ghost spaceOk: bool)
      returns (r: Result<(IterVar, IterVar), StageError>)
      modifies this`allIterVars, this`leafIterVars, this`relations
      requires x in leaf0 && xo != xi && y != xo && y != xi && xo !in leaf0 && xi !in leaf0
      requires leafIterVars == SplitLeaves(leaf0, FirstIndex(leaf0, x), xo, xi)
      requires spaceOk ==> IterSpaceOk() && Distinct(leaf0)
      ensures spaceOk ==> (r.Ok? <==> Splittable(y.iterType) && y in leaf0 && x != y)
      ensures r.Ok? ==>
        var yo, yi := r.value.0, r.value.1;
        fresh(yo) && fresh(yi) && yo != yi && yo.iterType == yi.iterType == y.iterType
        && xo in leafIterVars && xi in leafIterVars && yo in leafIterVars && yi in leafIterVars
        && relations == old(relations) + [SplitRelation(y, yo, yi, Some(yFactor), None)]
        && allIterVars == old(allIterVars) + [yo, yi]
      ensures r.Ok? && spaceOk && FirstIndex(leaf0, x) < FirstIndex(leaf0, y) ==>
        leafIterVars == TwoSlots(leaf0, FirstIndex(leaf0, x), FirstIndex(leaf0, y), xo, xi, r.value.0, r.value.1)
      ensures spaceOk ==> IterSpaceOk()
    {
      var sy := Split(y, yFactor);
      if sy.Err? {
        if spaceOk && y in leaf0 && Splittable(y.iterType) && x != y {
          TileSecondLeaf(leaf0, x, y, xo, xi);
        }
        return Err(sy.error);
      }
      var yo, yi := sy.value.0, sy.value.1;
      TileSplitMembers(leaf0, x, y, xo, xi, yo, yi);
      if spaceOk && FirstIndex(leaf0, x) < FirstIndex(leaf0, y) {
        TileSplitLayout(leaf0, x, y, xo, xi, yo, yi);
      }
      return Ok((yo, yi));
    }

    /**
     * `tile(x, y, xFactor, yFactor)`: splits `x` and `y`, then reorders the four parts
     * as x outer, y outer, x inner, y inner. When `x` precedes `y`, the outer parts take
     * `x`'s slot and the inner parts take `y`'s.
     */
    method Tile(x: IterVar, y: IterVar, xFactor: int, yFactor: int)
      returns (r: Result<(IterVar, IterVar, IterVar, IterVar), StageError>)
      modifies this`allIterVars, this`leafIterVars, this`relations
      ensures old(IterSpaceOk()) ==>
        (r.Ok? <==> (x.iterType == DataPar || x.iterType == CommReduce)
                    && (y.iterType == DataPar || y.iterType == CommReduce)
                    && x in old(leafIterVars) && y in old(leafIterVars) && x != y)
      ensures r.Ok? ==> fresh(r.value.0) && fresh(r.value.1) && fresh(r.value.2) && fresh(r.value.3)
      ensures r.Ok? ==>
        var xo, yo, xi, yi := r.value.0, r.value.1, r.value.2, r.value.3;
        relations == old(relations) + [SplitRelation(x, xo, xi, Some(xFactor), None)]
                                    + [SplitRelation(y, yo, yi, Some(yFactor), None)]
        && allIterVars == old(allIterVars) + [xo, xi] + [yo, yi]
      ensures r.Ok? && old(IterSpaceOk()) && FirstIndex(old(leafIterVars), x) < FirstIndex(old(leafIterVars), y) ==>
        var px, py := FirstIndex(old(leafIterVars), x), FirstIndex(old(leafIterVars), y);
        var xo, yo, xi, yi := r.value.0, r.value.1, r.value.2, r.value.3;
        leafIterVars == TwoSlots(old(leafIterVars), px, py, xo, yo, xi, yi)
      ensures old(IterSpaceOk()) ==> IterSpaceOk()
    {
      ghost var leaf0 := leafIterVars;
      var s := TileSplits(x, y, xFactor, yFactor);
      if s.Err? {
        return s;
      }
      var (xo, yo, xi, yi) := s.value;
      ghost var leaf2, rels2, all2 := leafIterVars, relations, allIterVars;
      ghost var spaceOk := old(IterSpaceOk());
      var ro := Reorder([xo, yo, xi, yi]);
      assert relations == rels2 && allIterVars == all2;
      if spaceOk && Reorderable(x.iterType) && Reorderable(y.iterType) {
        TileOrderOk(allIterVars, leaf2, xo, yo, xi, yi);
        if FirstIndex(leaf0, x) < FirstIndex(leaf0, y) {
          TileReorder(allIterVars, leaf0, FirstIndex(leaf0, x), FirstIndex(leaf0, y), xo, xi, yo, yi);
        }
      }
      if ro.Fail? {
        return Err(ro.error);
      }
      return Ok((xo, yo, xi, yi));
    }

    /**
     * The shared update of a loop variable's attributes: when `needLeaf` holds, `v`
     * must be a leaf; the update then applies to the recorded attributes or to the
     * defaults.
     */
    method UpdateIterVarAttr(v: IterVar, u: AttrUpdate, needLeaf: bool) returns (r: Outcome<StageError>)
      modifies this`iterVarAttrs
      ensures r.Pass? <==> !needLeaf || v in leafIterVars
      ensures r.Fail? ==> r.error == LeafPos(allIterVars, leafIterVars, v).error
                          && iterVarAttrs == old(iterVarAttrs)
      ensures r.Pass? ==> iterVarAttrs == old(iterVarAttrs)[v := ApplyUpdate(AttrOf(old(iterVarAttrs), v), u)]
    {
      if needLeaf {
        var found := FindLeafVar(allIterVars, leafIterVars, v);
        if found.Err? {
          return Fail(found.error);
        }
      }
      var n := if v in iterVarAttrs then iterVarAttrs[v] else DefaultAttr();
      iterVarAttrs := iterVarAttrs[v := ApplyUpdate(n, u)];
      return Pass;
    }

    /** Binds leaf `ivar` (data-parallel or reduce) to the thread axis `thread`. */
    method Bind(ivar: IterVar, thread: IterVar) returns (r: Outcome<StageError>)
      modifies this`iterVarAttrs
      ensures !(ivar.iterType == DataPar || ivar.iterType == CommReduce) ==> r == Fail(CannotBind)
      ensures (ivar.iterType == DataPar || ivar.iterType == CommReduce) && thread.iterType != ThreadIndex ==>
        r == Fail(NotThreadAxis)
      ensures r.Pass? <==> (ivar.iterType == DataPar || ivar.iterType == CommReduce)
                           && thread.iterType == ThreadIndex && ivar in leafIterVars
      ensures r.Pass? ==> iterVarAttrs == old(iterVarAttrs)[ivar := AttrOf(old(iterVarAttrs), ivar).(bindThread := Some(thread))]
      ensures r.Fail? ==> iterVarAttrs == old(iterVarAttrs)
    {
      if !(ivar.iterType == DataPar || ivar.iterType == CommReduce) {
        return Fail(CannotBind);
      }
      if thread.iterType != ThreadIndex {
        return Fail(NotThreadAxis);
      }
      r := UpdateIterVarAttr(ivar, SetBindThread(thread), true);
    }

    /** Marks leaf `v` vectorized, for the kinds that allow it. */
    method Vectorize(v: IterVar) returns (r: Outcome<StageError>)
      modifies this`iterVarAttrs
      ensures !Vectorizable(v.iterType) ==> r == Fail(CannotVectorize)
      ensures r.Pass? <==> Vectorizable(v.iterType) && v in leafIterVars
      ensures r.Pass? ==> iterVarAttrs == old(iterVarAttrs)[v := AttrOf(old(iterVarAttrs), v).(iterType := Vectorized)]
      ensures r.Fail? ==> iterVarAttrs == old(iterVarAttrs)
    {
      if !Vectorizable(v.iterType) {
        return Fail(CannotVectorize);
      }
      r := UpdateIterVarAttr(v, SetIterType(Vectorized), true);
    }

    /** Marks leaf `v` tensorized by intrinsic `intrin`. */
    method Tensorize(v: IterVar, intrin: nat) returns (r: Outcome<StageError>)
      modifies this`iterVarAttrs
      ensures r.Pass? <==> v in leafIterVars
      ensures r.Pass? ==> iterVarAttrs == old(iterVarAttrs)[v := AttrOf(old(iterVarAttrs), v).(iterType := Tensorized, tensorIntrin := Some(intrin))]
      ensures r.Fail? ==> iterVarAttrs == old(iterVarAttrs)
    {
      r := UpdateIterVarAttr(v, SetTensorIntrin(intrin), true);
    }

    /** Marks leaf `v` unrolled. */
    method Unroll(v: IterVar) returns (r: Outcome<StageError>)
      modifies this`iterVarAttrs
      ensures r.Pass? <==> v in leafIterVars
      ensures r.Pass? ==> iterVarAttrs == old(iterVarAttrs)[v := AttrOf(old(iterVarAttrs), v).(iterType := Unrolled)]
      ensures r.Fail? ==> iterVarAttrs == old(iterVarAttrs)
    {
      r := UpdateIterVarAttr(v, SetIterType(Unrolled), true);
    }

    /** Marks leaf `v` parallel. */
    method Parallel(v: IterVar) returns (r: Outcome<StageError>)
      modifies this`iterVarAttrs
      ensures r.Pass? <==> v in leafIterVars
      ensures r.Pass? ==> iterVarAttrs == old(iterVarAttrs)[v := AttrOf(old(iterVarAttrs), v).(iterType := Parallelized)]
      ensures r.Fail? ==> iterVarAttrs == old(iterVarAttrs)
    {
      r := UpdateIterVarAttr(v, SetIterType(Parallelized), true);
    }

    /**
     * A pragma on leaf `v`: "unroll" and "vectorize" act like the primitives of those
     * names; any other pragma is appended with its value.
     */
    method Pragma(v: IterVar, pragmaType: string, value: PrimExpr) returns (r: Outcome<StageError>)
      modifies this`iterVarAttrs
      ensures pragmaType == "vectorize" && !Vectorizable(v.iterType) ==> r == Fail(CannotVectorize)
      ensures r.Pass? <==> v in leafIterVars && (pragmaType == "vectorize" ==> Vectorizable(v.iterType))
      ensures r.Pass? && pragmaType == "unroll" ==>
        iterVarAttrs == old(iterVarAttrs)[v := AttrOf(old(iterVarAttrs), v).(iterType := Unrolled)]
      ensures r.Pass? && pragmaType == "vectorize" ==>
        iterVarAttrs == old(iterVarAttrs)[v := AttrOf(old(iterVarAttrs), v).(iterType := Vectorized)]
      ensures r.Pass? && pragmaType != "unroll" && pragmaType != "vectorize" ==>
        v in iterVarAttrs
        && iterVarAttrs[v].pragmaKeys == AttrOf(old(iterVarAttrs), v).pragmaKeys + [pragmaType]
        && iterVarAttrs[v].pragmaValues == AttrOf(old(iterVarAttrs), v).pragmaValues + [value]
        && iterVarAttrs == old(iterVarAttrs)[v := ApplyUpdate(AttrOf(old(iterVarAttrs), v), AddPragma(pragmaType, value))]
      ensures r.Fail? ==> iterVarAttrs == old(iterVarAttrs)
    {
      if pragmaType == "unroll" {
        r := Unroll(v);
      } else if pragmaType == "vectorize" {
        r := Vectorize(v);
      } else {
        r := UpdateIterVarAttr(v, AddPragma(pragmaType, value), true);
      }
    }

    /** Prefetches `tensor` at `offset` in leaf `v`. */
    method Prefetch(tensor: Tensor, v: IterVar, offset: PrimExpr) returns (r: Outcome<StageError>)
      modifies this`iterVarAttrs
      ensures r.Pass? <==> v in leafIterVars
      ensures r.Pass? ==>
        v in iterVarAttrs
        && iterVarAttrs[v].prefetchData == AttrOf(old(iterVarAttrs), v).prefetchData + [tensor]
        && iterVarAttrs[v].prefetchOffset == AttrOf(old(iterVarAttrs), v).prefetchOffset + [offset]
        && iterVarAttrs == old(iterVarAttrs)[v := ApplyUpdate(AttrOf(old(iterVarAttrs), v), AddPrefetch(tensor, offset))]
      ensures r.Fail? ==> iterVarAttrs == old(iterVarAttrs)
    {
      r := UpdateIterVarAttr(v, AddPrefetch(tensor, offset), true);
    }

    /** Records the storage alignment of `axis`; the axis need not be a leaf. */
    method StorageAlign(axis: IterVar, factor: int, offset: int)
      modifies this`iterVarAttrs
      ensures iterVarAttrs == old(iterVarAttrs)[axis := AttrOf(old(iterVarAttrs), axis).(dimAlignFactor := factor, dimAlignOffset := offset)]
    {
      var r := UpdateIterVarAttr(axis, SetAlign(factor, offset), false);
    }

    /** Double-buffers a stage that is not an output. */
    method DoubleBuffer() returns (r: Outcome<StageError>)
      modifies this`doubleBuffer
      ensures r.Pass? <==> !isOutput
      ensures r.Fail? ==> r.error == OutputDoubleBuffer && doubleBuffer == old(doubleBuffer)
      ensures r.Pass? ==> doubleBuffer
    {
      if isOutput {
        return Fail(OutputDoubleBuffer);
      }
      doubleBuffer := true;
      return Pass;
    }

    /** Every recorded level keeps only split relations. */
    ghost predicate DecompOk()
      reads this
    {
      StackSplitsOnly(decompStack)
    }

    /**
     * `decompStackPushHelper`: a new level with `factors` on top of the stack, and the
     * level-0 splits rebased onto `newAxis`; it returns the new right variables. A
     * failed check leaves the lists as far as the update had got (see `PushStopped`).
     */
    method PushLevel(factors: seq<int>, newAxis: seq<IterVar>)
      returns (r: Result<seq<IterVar>, StageError>, ghost done: nat, ghost erased: seq<IterVar>,
               ghost ls: seq<IterVar>, ghost rs: seq<IterVar>)
      requires |decompStack| > 0 && DecompOk()
      requires FactorCheck(decompStack[|decompStack| - 1].factors, factors, 0).Pass?
      modifies this`leafIterVars, this`allIterVars, this`relations, this`decompStack
      ensures DecompOk()
      ensures r.Ok? <==> PushCheck(old(leafIterVars), old(relations), old(decompStack), factors, newAxis).Pass?
      ensures r.Err? ==>
        r.error == PushCheck(old(leafIterVars), old(relations), old(decompStack), factors, newAxis).error
        && PushStopped(old(leafIterVars), old(allIterVars), old(relations), old(decompStack), factors, newAxis,
                       r.error, done, erased, ls, rs, leafIterVars, allIterVars, relations, decompStack)
      ensures r.Ok? ==>
        PushedLevel(old(leafIterVars), old(allIterVars), old(relations), old(decompStack), factors, newAxis,
                    leafIterVars, allIterVars, relations, decompStack)
        && r.value == decompStack[|decompStack| - 1].rightIvars
        && forall k :: 0 <= k < |r.value| ==>
             fresh(r.value[k]) && fresh(decompStack[|decompStack| - 1].leftIvars[k])
      ensures old(IterSpaceOk()) ==> IterSpaceOk()
    {
      var leaf', all', rels', stack';
      var ls', rs';
      r, leaf', all', rels', stack', done, erased, ls', rs' :=
        PushValues(leafIterVars, allIterVars, relations, decompStack, factors, newAxis);
      ls, rs := ls', rs';
      leafIterVars, allIterVars, relations, decompStack := leaf', all', rels', stack';
    }

    /**
     * `decompose`: after its checks, the stage's operation is replaced by a fresh
     * compute operation over new axes whose extents are the output-0 extents divided by
     * the factors, and a new decomposition level with those factors is pushed. It
     * returns the new right variables. A failed check of `decompose` itself changes
     * nothing; one of `decompStackPushHelper` keeps the operation and leaves the lists
     * as far as the push on the discarded new axes `na` had got (`done`, `erased`, `ls`
     * and `rs` are as in `PushStopped`).
     */
    method Decompose(factors: seq<int>)
      returns (r: Result<seq<IterVar>, StageError>, ghost na: seq<IterVar>, ghost done: nat,
               ghost erased: seq<IterVar>, ghost ls: seq<IterVar>, ghost rs: seq<IterVar>)
      requires DecompOk()
      modifies this`op, this`leafIterVars, this`allIterVars, this`relations, this`decompStack
      ensures DecompOk()
      ensures DecomposeCheck(old(op), old(decompStack), factors).Fail? ==>
        r == Err(DecomposeCheck(old(op), old(decompStack), factors).error) && unchanged(this)
      ensures r.Err? ==> op == old(op)
      ensures DecomposeCheck(old(op), old(decompStack), factors).Pass? && r.Err? ==>
        AxesOnVars(na, old(op).value.kind.axis)
        && PushStopped(old(leafIterVars), old(allIterVars), old(relations), old(decompStack), factors, na,
                       r.error, done, erased, ls, rs, leafIterVars, allIterVars, relations, decompStack)
      ensures r.Ok? <==> DecomposeOk(old(op), old(leafIterVars), old(relations), old(decompStack), factors)
      ensures r.Ok? ==>
        op.Some? && fresh(op.value) && Decomposed(old(op).value, op.value, factors)
        && (forall k :: 0 <= k < |op.value.kind.axis| ==> fresh(op.value.kind.axis[k]))
        && PushedLevel(old(leafIterVars), old(allIterVars), old(relations), old(decompStack), factors,
                       op.value.kind.axis, leafIterVars, allIterVars, relations, decompStack)
        && r.value == decompStack[|decompStack| - 1].rightIvars
        && forall k :: 0 <= k < |r.value| ==>
             fresh(r.value[k]) && fresh(decompStack[|decompStack| - 1].leftIvars[k])
      ensures old(IterSpaceOk()) ==> IterSpaceOk()
    {
      var c := DecomposeCheck(op, decompStack, factors);
      if c.Fail? {
        return Err(c.error), [], 0, [], [], [];
      }
      r, na, done, erased, ls, rs := DecomposeChecked(factors);
    }

    /** `decompose` once its own checks have passed: the new operation and the push. */
    method DecomposeChecked(factors: seq<int>)
      returns (r: Result<seq<IterVar>, StageError>, ghost na: seq<IterVar>, ghost done: nat,
               ghost erased: seq<IterVar>, ghost ls: seq<IterVar>, ghost rs: seq<IterVar>)
      requires DecompOk() && DecomposeCheck(op, decompStack, factors).Pass?
      modifies this`op, this`leafIterVars, this`allIterVars, this`relations, this`decompStack
      ensures DecompOk()
      ensures r.Err? ==> op == old(op)
      ensures r.Err? ==>
        AxesOnVars(na, old(op).value.kind.axis)
        && PushStopped(old(leafIterVars), old(allIterVars), old(relations), old(decompStack), factors, na,
                       r.error, done, erased, ls, rs, leafIterVars, allIterVars, relations, decompStack)
      ensures r.Ok? <==> DecomposeOk(old(op), old(leafIterVars), old(relations), old(decompStack), factors)
      ensures r.Ok? ==>
        op.Some? && fresh(op.value) && Decomposed(old(op).value, op.value, factors)
        && (forall k :: 0 <= k < |op.value.kind.axis| ==> fresh(op.value.kind.axis[k]))
        && PushedLevel(old(leafIterVars), old(allIterVars), old(relations), old(decompStack), factors,
                       op.value.kind.axis, leafIterVars, allIterVars, relations, decompStack)
        && r.value == decompStack[|decompStack| - 1].rightIvars
        && forall k :: 0 <= k < |r.value| ==>
             fresh(r.value[k]) && fresh(decompStack[|decompStack| - 1].leftIvars[k])
      ensures old(IterSpaceOk()) ==> IterSpaceOk()
    {
      ghost var leaf0, all0, rels0, stack0 := leafIterVars, allIterVars, relations, decompStack;
      var newOp := DecomposedOp(op.value, factors);
      var axes := newOp.kind.axis;
      na := axes;
      DecomposeOkPush(op, leaf0, rels0, stack0, factors, na);
      r, done, erased, ls, rs := PushLevel(factors, axes);
      if r.Ok? {
        assert PushedLevel(leaf0, all0, rels0, stack0, factors, na, leafIterVars, allIterVars, relations, decompStack);
        op := Some(newOp);
      } else {
        assert AxesOnVars(na, old(op).value.kind.axis);
        assert PushStopped(leaf0, all0, rels0, stack0, factors, na,
                           r.error, done, erased, ls, rs, leafIterVars, allIterVars, relations, decompStack);
      }
    }

    /**
     * The environment threads of a scan stage, set once: they become the outermost
     * leaves and the last variables.
     */
    method EnvThreads(threads: seq<IterVar>) returns (r: Outcome<StageError>)
      modifies this`leafIterVars, this`allIterVars, this`envThreads
      ensures r.Pass? <==> op.Some? && op.value.kind.ScanOp? && old(envThreads) == []
      ensures !(op.Some? && op.value.kind.ScanOp?) ==> r == Fail(NotScanOp)
      ensures r.Pass? ==> leafIterVars == threads + old(leafIterVars) && allIterVars == old(allIterVars) + threads
                          && envThreads == threads
      ensures r.Fail? ==> leafIterVars == old(leafIterVars) && allIterVars == old(allIterVars)
                          && envThreads == old(envThreads)
      ensures old(IterSpaceOk()) && Distinct(threads) && (forall t :: t in threads ==> t !in old(allIterVars)) ==>
        IterSpaceOk()
    {
      if !(op.Some? && op.value.kind.ScanOp?) {
        return Fail(NotScanOp);
      }
      if envThreads != [] {
        return Fail(EnvThreadsSet);
      }
      if IterSpaceOk() && Distinct(threads) && (forall t :: t in threads ==> t !in allIterVars) {
        EnvThreadsKeepSpace(allIterVars, leafIterVars, threads);
      }
      leafIterVars := threads + leafIterVars;
      allIterVars := allIterVars + threads;
      envThreads := threads;
      return Pass;
    }

    /** The stage whose attachment decides where this one is computed. */
    method GetAttachSpec(ghost S: set<Stage>) returns (r: Stage)
      requires GroupsOk(S) && this in S
      ensures r == AttachSpecOf(this, S)
    {
      r := this;
      while r.attachType == GroupRoot && r.group.Some?
        invariant r in S && AttachSpecOf(r, S) == AttachSpecOf(this, S)
        decreases r.depth
      {
        r := r.group.value;
      }
    }

    /**
     * Computes the stage at `scope`, a leaf of `parent`. Not for scan updates; a
     * grouped stage may only be attached to a stage whose group chain reaches its
     * group. The attachment is recorded before the leaf search, so a missing axis
     * fails with the attachment already written.
     */
    method ComputeAt(parent: Stage, scope: IterVar, ghost S: set<Stage>) returns (r: Outcome<StageError>)
      requires GroupsOk(S) && parent in S
      modifies this`attachType, this`attachIvar, this`attachStage
      ensures old(attachType) == ScanUpdate ==> r == Fail(ScanUpdateAttach)
      ensures old(attachType) != ScanUpdate ==>
        (r == Fail(OutsideGroup) <==> old(group.Some? && group.value !in Chain(parent.group, S)))
      ensures r == Fail(ScanUpdateAttach) || r == Fail(OutsideGroup) ==>
        attachType == old(attachType) && attachIvar == old(attachIvar) && attachStage == old(attachStage)
      ensures r.Pass? || r == Fail(AxisNotInParent) ==>
        attachType == Scope && attachIvar == Some(scope) && attachStage == Some(parent)
      ensures r.Pass? <==> old(attachType != ScanUpdate && (group.Some? ==> group.value in Chain(parent.group, S)))
                           && scope in parent.leafIterVars
      ensures r.Fail? ==> r.error in {ScanUpdateAttach, OutsideGroup, AxisNotInParent}
    {
      if attachType == ScanUpdate {
        return Fail(ScanUpdateAttach);
      }
      if group.Some? {
        var within := OnChain(group.value, parent.group, S);
        if !within {
          return Fail(OutsideGroup);
        }
      }
      attachType := Scope;
      attachIvar := Some(scope);
      attachStage := Some(parent);
      var pos := FindNodeRef(parent.leafIterVars, scope);
      if pos == |parent.leafIterVars| {
        return Fail(AxisNotInParent);
      }
      return Pass;
    }

    /** Inlines the stage into its consumers; not for scan updates. */
    method ComputeInline() returns (r: Outcome<StageError>)
      modifies this`attachType
      ensures r.Pass? <==> old(attachType) != ScanUpdate
      ensures r.Pass? ==> attachType == Inline
      ensures r.Fail? ==> r.error == ScanUpdateAttach && attachType == old(attachType)
    {
      if attachType == ScanUpdate {
        return Fail(ScanUpdateAttach);
      }
      attachType := Inline;
      return Pass;
    }

    /** Computes the stage at the root of its group; not for scan updates. */
    method ComputeRoot() returns (r: Outcome<StageError>)
      modifies this`attachType
      ensures r.Pass? <==> old(attachType) != ScanUpdate
      ensures r.Pass? ==> attachType == GroupRoot
      ensures r.Fail? ==> r.error == ScanUpdateAttach && attachType == old(attachType)
    {
      if attachType == ScanUpdate {
        return Fail(ScanUpdateAttach);
      }
      attachType := GroupRoot;
      return Pass;
    }
  }

  /** Prepending new distinct threads keeps the lists well formed. */
  lemma EnvThreadsKeepSpace(all: seq<IterVar>, leaf: seq<IterVar>, threads: seq<IterVar>)
    requires SpaceOk(all, leaf) && Distinct(threads) && forall t :: t in threads ==> t !in all
    ensures SpaceOk(all + threads, threads + leaf)
  {
    var l := threads + leaf;
    forall i, j | 0 <= i < j < |l| ensures l[i] != l[j] {
      if j < |threads| {
      } else if i < |threads| {
        assert l[j] == leaf[j - |threads|] && l[j] in all;
      } else {
        assert l[i] == leaf[i - |threads|] && l[j] == leaf[j - |threads|];
      }
    }
    var a := all + threads;
    forall i, j | 0 <= i < j < |a| ensures a[i] != a[j] {
      if j < |all| {
        assert a[i] == all[i] && a[j] == all[j];
      } else if i < |all| {
        assert a[i] == all[i] && a[j] == threads[j - |all|];
        assert a[j] in threads;
      } else {
        assert a[i] == threads[i - |all|] && a[j] == threads[j - |all|];
      }
    }
  }

  /** The four parts of a tile, all leaves, pass the checks of a reorder. */
  lemma TileOrderOk(all: seq<IterVar>, leaf: seq<IterVar>, xo: IterVar, yo: IterVar, xi: IterVar, yi: IterVar)
    requires xo in leaf && yo in leaf && xi in leaf && yi in leaf
    requires xo != yo && xo != xi && xo != yi && yo != xi && yo != yi && xi != yi
    requires Reorderable(xo.iterType) && Reorderable(yo.iterType) && Reorderable(xi.iterType) && Reorderable(yi.iterType)
    ensures ReorderSpec(all, leaf, [xo, yo, xi, yi]).Ok?
  {
    var order := [xo, yo, xi, yi];
    assert forall k :: 0 <= k < 4 ==> Reorderable(order[k].iterType) && order[k] in leaf;
    assert Distinct(order);
  }

  /** The leaves after the two splits of a tile hold all four parts. */
  lemma TileSplitMembers(leaf: seq<IterVar>, x: IterVar, y: IterVar, xo: IterVar, xi: IterVar, yo: IterVar, yi: IterVar)
    requires x in leaf && y in SplitLeaves(leaf, FirstIndex(leaf, x), xo, xi) && y != xo && y != xi
    ensures var l1 := SplitLeaves(leaf, FirstIndex(leaf, x), xo, xi);
      var l2 := SplitLeaves(l1, FirstIndex(l1, y), yo, yi);
      xo in l2 && xi in l2 && yo in l2 && yi in l2
  {
    var px := FirstIndex(leaf, x);
    var l1 := SplitLeaves(leaf, px, xo, xi);
    var qy := FirstIndex(l1, y);
    var l2 := SplitLeaves(l1, qy, yo, yi);
    assert l1[px] == xo && l1[px + 1] == xi;
    assert l2[qy] == yo && l2[qy + 1] == yi;
    SplitKeeps(l1, qy, yo, yi, xo);
    SplitKeeps(l1, qy, yo, yi, xi);
  }

  /** In a list without repetitions with `x` before `y`, the two splits of a tile follow the tile layout. */
  lemma TileSplitLayout(leaf: seq<IterVar>, x: IterVar, y: IterVar, xo: IterVar, xi: IterVar, yo: IterVar, yi: IterVar)
    requires Distinct(leaf) && x in leaf && y in leaf && FirstIndex(leaf, x) < FirstIndex(leaf, y) && y != xo && y != xi
    ensures var l1 := SplitLeaves(leaf, FirstIndex(leaf, x), xo, xi);
      y in l1 && SplitLeaves(l1, FirstIndex(l1, y), yo, yi)
        == TwoSlots(leaf, FirstIndex(leaf, x), FirstIndex(leaf, y), xo, xi, yo, yi)
  {
    TileSecondLeaf(leaf, x, y, xo, xi);
    TileLayout(leaf, FirstIndex(leaf, x), FirstIndex(leaf, y), xo, xi, yo, yi);
  }

  /** Splitting a slot keeps every variable held by another slot. */
  lemma SplitKeeps(leaf: seq<IterVar>, pos: nat, outer: IterVar, inner: IterVar, v: IterVar)
    requires pos < |leaf| && v in leaf && v != leaf[pos]
    ensures v in SplitLeaves(leaf, pos, outer, inner)
  {
    var k :| 0 <= k < |leaf| && leaf[k] == v;
    var r := SplitLeaves(leaf, pos, outer, inner);
    if k < pos {
      assert r[..pos][k] == v;
    } else {
      assert r[pos + 2..][k - pos - 1] == v;
    }
  }

  /** After `x` is split, `y` (another leaf) is still a leaf, one slot later when it followed `x`. */
  lemma TileSecondLeaf(leaf: seq<IterVar>, x: IterVar, y: IterVar, xo: IterVar, xi: IterVar)
    requires Distinct(leaf) && x in leaf && y in leaf && x != y && y != xo && y != xi
    ensures var l1 := SplitLeaves(leaf, FirstIndex(leaf, x), xo, xi);
      y in l1 && FirstIndex(l1, y) == (if FirstIndex(leaf, y) < FirstIndex(leaf, x) then FirstIndex(leaf, y) else FirstIndex(leaf, y) + 1)
  {
    var px, py := FirstIndex(leaf, x), FirstIndex(leaf, y);
    var l1 := SplitLeaves(leaf, px, xo, xi);
    var q := if py < px then py else py + 1;
    assert l1[q] == y;
    forall k | 0 <= k < q ensures l1[k] != y {
      if k < px {
        assert l1[k] == leaf[k];
      } else if k > px + 1 {
        assert l1[k] == leaf[k - 1];
      }
    }
  }

  /**
   * `leaf` with slot `px` replaced by `p0, p1` and slot `py` by `q0, q1`: the layout
   * of the leaves around the two axes of a tile.
   */
  function TwoSlots(leaf: seq<IterVar>, px: nat, py: nat, p0: IterVar, p1: IterVar, q0: IterVar, q1: IterVar): (r: seq<IterVar>)
    requires px < py < |leaf|
    ensures |r| == |leaf| + 2 && r[px] == p0 && r[px + 1] == p1 && r[py + 1] == q0 && r[py + 2] == q1
  {
    seq(|leaf| + 2, j requires 0 <= j < |leaf| + 2 =>
      if j < px then leaf[j]
      else if j == px then p0
      else if j == px + 1 then p1
      else if j <= py then leaf[j - 1]
      else if j == py + 1 then q0
      else if j == py + 2 then q1
      else leaf[j - 2])
  }

  /** Splitting slot `px` and then slot `py` (one later by then) lays out the two pairs of parts. */
  lemma TileLayout(leaf: seq<IterVar>, px: nat, py: nat, xo: IterVar, xi: IterVar, yo: IterVar, yi: IterVar)
    requires px < py < |leaf|
    ensures py + 1 < |SplitLeaves(leaf, px, xo, xi)|
    ensures SplitLeaves(SplitLeaves(leaf, px, xo, xi), py + 1, yo, yi) == TwoSlots(leaf, px, py, xo, xi, yo, yi)
  {
    var l1 := SplitLeaves(leaf, px, xo, xi);
    var l2 := SplitLeaves(l1, py + 1, yo, yi);
    var t := TwoSlots(leaf, px, py, xo, xi, yo, yi);
    forall j | 0 <= j < |t| ensures l2[j] == t[j] {
      if j < px {
        assert l2[j] == l2[..py + 1][j] == l1[..py + 1][j] == l1[..px][j] == leaf[..px][j];
      } else if px + 1 < j <= py {
        assert l2[j] == l2[..py + 1][j] == l1[..py + 1][j] == l1[px + 2..][j - px - 2] == leaf[px + 1..][j - px - 2];
      } else if py + 2 < j {
        assert l2[j] == l2[py + 3..][j - py - 3] == l1[py + 2..][j - py - 3] == leaf[px + 1..][j - px - 3];
      }
    }
  }

  /** Where the four parts of a tile sit when they occur nowhere else in the leaves. */
  lemma TileIndices(leaf: seq<IterVar>, px: nat, py: nat, xo: IterVar, xi: IterVar, yo: IterVar, yi: IterVar)
    requires px < py < |leaf| && xo !in leaf && xi !in leaf && yo !in leaf && yi !in leaf
    requires xo != xi && xo != yo && xo != yi && xi != yo && xi != yi && yo != yi
    ensures var l2 := TwoSlots(leaf, px, py, xo, xi, yo, yi);
      FirstIndex(l2, xo) == px && FirstIndex(l2, xi) == px + 1 && FirstIndex(l2, yo) == py + 1 && FirstIndex(l2, yi) == py + 2
  {
    var l2 := TwoSlots(leaf, px, py, xo, xi, yo, yi);
    forall k | 0 <= k < py + 2
      ensures l2[k] != yi && (k < py + 1 ==> l2[k] != yo) && (k < px + 1 ==> l2[k] != xi) && (k < px ==> l2[k] != xo)
    {
      if k < px {
        assert l2[k] == leaf[k];
      } else if px + 1 < k <= py {
        assert l2[k] == leaf[k - 1];
      }
    }
    FirstIndexAt(l2, px);
    FirstIndexAt(l2, px + 1);
    FirstIndexAt(l2, py + 1);
    FirstIndexAt(l2, py + 2);
  }

  /** The slot rewrite of a tile's four parts exchanges the two middle ones. */
  lemma TileSlots(leaf: seq<IterVar>, px: nat, py: nat, xo: IterVar, xi: IterVar, yo: IterVar, yi: IterVar)
    requires px < py < |leaf|
    requires xo != xi && xo != yo && xo != yi && xi != yo && xi != yi && yo != yi
    ensures Reordered(TwoSlots(leaf, px, py, xo, xi, yo, yi), Elems<nat>([px, py + 1, px + 1, py + 2]), [xo, yo, xi, yi])
            == TwoSlots(leaf, px, py, xo, yo, xi, yi)
  {
    var l2 := TwoSlots(leaf, px, py, xo, xi, yo, yi);
    var pos: seq<nat>, order := [px, py + 1, px + 1, py + 2], [xo, yo, xi, yi];
    var s: seq<nat> := [px, px + 1, py + 1, py + 2];
    assert Elems(s) == Elems(pos);
    assert NamedAt(l2, pos, order);
    assert Distinct(order);
    var want := TwoSlots(leaf, px, py, xo, yo, xi, yi);
    ReorderedBySlots(l2, pos, order, s, want);
  }

  /**
   * Reordering the four parts of a tile, laid out as `xo, xi` in one slot and `yo, yi`
   * in a later one, to `[xo, yo, xi, yi]` puts the outer parts in the first slot and
   * the inner parts in the second.
   */
  lemma TileReorder(all: seq<IterVar>, leaf: seq<IterVar>, px: nat, py: nat, xo: IterVar, xi: IterVar, yo: IterVar, yi: IterVar)
    requires px < py < |leaf| && xo !in leaf && xi !in leaf && yo !in leaf && yi !in leaf
    requires xo != xi && xo != yo && xo != yi && xi != yo && xi != yi && yo != yi
    ensures var l2 := TwoSlots(leaf, px, py, xo, xi, yo, yi);
      ReorderSpec(all, l2, [xo, yo, xi, yi]).Ok? ==>
      ReorderSpec(all, l2, [xo, yo, xi, yi]).value == TwoSlots(leaf, px, py, xo, yo, xi, yi)
  {
    var l2 := TwoSlots(leaf, px, py, xo, xi, yo, yi);
    var order := [xo, yo, xi, yi];
    if ReorderSpec(all, l2, order).Ok? {
      ReorderSpecValue(all, l2, order);
      TilePositions(all, leaf, px, py, xo, xi, yo, yi);
      TileSlots(leaf, px, py, xo, xi, yo, yi);
    }
  }

  /** The leaf searches of a tile's reorder find the four parts where the splits put them. */
  lemma TilePositions(all: seq<IterVar>, leaf: seq<IterVar>, px: nat, py: nat, xo: IterVar, xi: IterVar, yo: IterVar, yi: IterVar)
    requires px < py < |leaf| && xo !in leaf && xi !in leaf && yo !in leaf && yi !in leaf
    requires xo != xi && xo != yo && xo != yi && xi != yo && xi != yi && yo != yi
    ensures var r := OrderPositions(all, TwoSlots(leaf, px, py, xo, xi, yo, yi), [xo, yo, xi, yi], 0);
      r.Ok? && r.value == [px, py + 1, px + 1, py + 2]
  {
    var l2, order := TwoSlots(leaf, px, py, xo, xi, yo, yi), [xo, yo, xi, yi];
    var want: seq<nat> := [px, py + 1, px + 1, py + 2];
    TileIndices(leaf, px, py, xo, xi, yo, yi);
    forall k | 0 <= k < 4 ensures want[k] == FirstIndex(l2, order[k]) < |l2| {
      if k == 0 {
        assert order[k] == xo;
      } else if k == 1 {
        assert order[k] == yo;
      } else if k == 2 {
        assert order[k] == xi;
      } else {
        assert order[k] == yi;
      }
    }
    OrderPositionsOf(all, l2, order, want);
  }

  // ---------------------------------------------------------------- the group tree

  /**
   * The group links among `S` stay inside `S` and go strictly upwards: a stage's
   * group is shallower than the stage. Every walk along group links is finite.
   */
  ghost predicate GroupsOk(S: set<Stage>)
    reads S`group, S`depth
  {
    forall s :: s in S && s.group.Some? ==> s.group.value in S && s.group.value.depth < s.depth
  }

  /** The stages met by following group links from `g`, starting with `g` itself. */
  ghost function Chain(g: Option<Stage>, S: set<Stage>): (r: seq<Stage>)
    requires GroupsOk(S) && (g.Some? ==> g.value in S)
    reads S`group, S`depth
    ensures g.None? <==> r == []
    ensures g.Some? ==> r[0] == g.value
    ensures forall k :: 0 <= k < |r| ==> r[k] in S && r[k].depth <= g.value.depth
    decreases if g.Some? then g.value.depth + 1 else 0
  {
    if g.None? then [] else [g.value] + Chain(g.value.group, S)
  }

  /** A stage on `b`'s chain other than `b` is strictly shallower. */
  lemma ChainBelow(a: Stage, b: Stage, S: set<Stage>)
    requires GroupsOk(S) && b in S && a in Chain(Some(b), S)
    ensures a == b || a.depth < b.depth
  {
    if a != b {
      assert Chain(Some(b), S) == [b] + Chain(b.group, S);
    }
  }

  /** Two stages that lie on each other's chains are the same stage. */
  lemma ChainAntisymmetric(a: Stage, b: Stage, S: set<Stage>)
    requires GroupsOk(S) && a in S && b in S
    requires a in Chain(Some(b), S) && b in Chain(Some(a), S)
    ensures a == b
  {
    ChainBelow(a, b, S);
    ChainBelow(b, a, S);
  }

  /** A stage on the chain of a stage on `c`'s chain is on `c`'s chain. */
  lemma {:induction false} ChainTransitive(a: Stage, b: Stage, c: Option<Stage>, S: set<Stage>)
    requires GroupsOk(S) && (c.Some? ==> c.value in S)
    requires b in Chain(c, S) && a in Chain(Some(b), S)
    ensures a in Chain(c, S)
    decreases if c.Some? then c.value.depth + 1 else 0
  {
    if c.value != b {
      assert Chain(c, S) == [c.value] + Chain(c.value.group, S);
      ChainTransitive(a, b, c.value.group, S);
    }
  }

  /**
   * What `LeastCommonAncestor` finds: nothing when either group is undefined; `g2`
   * when it lies on `g1`'s chain, else `g1` when it lies on `g2`'s chain, else nothing.
   * Two groups in sibling subtrees therefore give nothing, not their common ancestor.
   */
  ghost function Lca(g1: Option<Stage>, g2: Option<Stage>, S: set<Stage>): (r: Option<Stage>)
    requires GroupsOk(S) && (g1.Some? ==> g1.value in S) && (g2.Some? ==> g2.value in S)
    reads S`group, S`depth
    ensures r.Some? ==> r.value in Chain(g1, S) && r.value in Chain(g2, S) && (r == g1 || r == g2)
    ensures r.None? && g1.Some? && g2.Some? ==> g1.value !in Chain(g2, S) && g2.value !in Chain(g1, S)
  {
    if g1.None? || g2.None? then None
    else if g2.value in Chain(g1, S) then g2
    else if g1.value in Chain(g2, S) then g1
    else None
  }

  /** The answer does not depend on the order of the two groups. */
  lemma LcaSymmetric(g1: Option<Stage>, g2: Option<Stage>, S: set<Stage>)
    requires GroupsOk(S) && (g1.Some? ==> g1.value in S) && (g2.Some? ==> g2.value in S)
    ensures Lca(g1, g2, S) == Lca(g2, g1, S)
  {
    if g1.Some? && g2.Some? && g2.value in Chain(g1, S) && g1.value in Chain(g2, S) {
      assert Chain(g1, S)[0] == g1.value;
      ChainAntisymmetric(g1.value, g2.value, S);
    }
  }

  /** Whether `g` is met when following group links from `start`, as `compute_at` walks them. */
  method OnChain(g: Stage, start: Option<Stage>, ghost S: set<Stage>) returns (b: bool)
    requires GroupsOk(S) && (start.Some? ==> start.value in S)
    ensures b == (g in Chain(start, S))
  {
    var pg := start;
    while pg.Some? && pg.value != g
      invariant pg.Some? ==> pg.value in S
      invariant (g in Chain(pg, S)) == (g in Chain(start, S))
      decreases if pg.Some? then pg.value.depth + 1 else 0
    {
      pg := pg.value.group;
    }
    return pg.Some?;
  }

  /**
   * The stage whose attachment decides where `s` is computed: group links are
   * followed while the stage met is a group root. It is on `s`'s chain, and it is
   * either attached some other way or has no group.
   */
  ghost function AttachSpecOf(s: Stage, S: set<Stage>): (r: Stage)
    requires GroupsOk(S) && s in S
    reads S
    ensures r in Chain(Some(s), S)
    ensures r.attachType != GroupRoot || r.group.None?
    decreases s.depth
  {
    if s.attachType == GroupRoot && s.group.Some? then
      var r := AttachSpecOf(s.group.value, S);
      assert Chain(Some(s), S) == [s] + Chain(s.group, S);
      r
    else s
  }
}
