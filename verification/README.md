# TSL scheduling core, modelled in Dafny

TSL ("tensor scheduling language") is a fork of TVM's tensor-expression layer. It adds
*compound indices*, which are lists of index terms, so that one tensor dimension can be
read at a tile coordinate. It adds a small expression language on top of them: tensor
reads (`TslProducerLoad`), element-wise `TslAdd`, matrix products `TslGemm`,
convolutions `TslConv`, and commutative reductions `TslReduce` with a combiner of
placeholder variables.

A stage can be *decomposed* into nested tiles. Each decomposition level splits every
left iteration variable of the level below into a new left/right pair. A per-variable
*decomposition stack* records the factors.

*Shape inference* works in two passes:

- A bottom-up collector names the dimensions of every node by compound indices.
- A top-down agent assigns each node the tile extents of its dimensions.

The schedule language is TVM's. It covers:

- the split, fuse, reorder and tile transformations;
- iteration-variable annotations (bind, vectorize, unroll, pragmas, prefetch and so on);
- attaching stages (compute_at, compute_inline, compute_root);
- groups of stages (`create_group`);
- copying a whole schedule;
- the stack of specialized conditions.

## How the project is organised

| file | what it models |
|---|---|
| `wrappers.dfy` | `Option`, `Result` and `Outcome`; every fatal check of the source is an error value. |
| `ir.dfy` | Data types, iteration variables and operations. An `IterVar`, `Var` or `Operation` is a class, so object identity stands for the source's pointer identity. |
| `cindex.dfy` | Compound indices and their helpers. |
| `decomp_stack.dfy` | Decomposition stacks and the lookup of a stack by index variable. |
| `tensor.dfy` | Tensors, compound reads, name hints and operation outputs. |
| `tsl_expr.dfy` | TSL expression constructors and the reduction combiner. |
| `positions.dfy` | First-occurrence search and the reorder permutation. |
| `dim_collector.dfy` | The dimension collector. |
| `shape_agent.dfy` | The shape agent and `InferShape`. |
| `ivar_visitor.dfy` | The root-path iteration-variable extent extraction. |
| `scenarios.dfy` | Whole-stage inference on the matrix-product, add and convolution programs of the repository's driver files. |
| `stage.dfy` | A stage, as a class whose fields the schedule primitives update in place. |
| `schedule.dfy` | Group creation, the operation-to-stage cache and schedule copying. |
| `spec_cond.dfy` | The specialized-condition scope stack. |

Each imperative routine of the source is a method with loops. It is proved to compute a
specification function, or to leave the stages in a state described by ghost predicates.
Lemmas then state what the source promises about those functions.

## Model

| member | source | states |
|---|---|---|
| CIndexAlgebra.IsCIndexEqual | src/tsl/te/schedule/shape.cc:25-35 | Two compound indices compare equal exactly when they have the same length and the same term at every position. |
| CIndexAlgebra.FindCIndex | src/tsl/te/schedule/shape.cc:37-44 | Returns the first position of the index in the list, or the list length exactly when it is absent. |
| CIndexAlgebra.IndexOfFirst | src/tsl/te/schedule/shape.cc:37-44 | The search result is the first position holding the index. |
| CIndexAlgebra.IndexOfAbsent | src/tsl/te/schedule/shape.cc:37-44 | The search of an absent index returns the list length. |
| CIndexAlgebra.IsCIndicesEqual | src/tsl/te/schedule/shape.cc:47-55 | Two index lists compare equal exactly when they are equal element by element. |
| CIndexAlgebra.Without | src/tsl/te/schedule/shape.cc:153-162 | Removing a term keeps exactly the other terms of the index, and nothing else. |
| CIndexAlgebra.WithoutCount | src/tsl/te/schedule/shape.cc:153-162 | After the removal the term occurs zero times and every other term keeps its multiplicity. |
| CIndexAlgebra.ExtractNonReductionForConv | src/tsl/te/schedule/shape.cc:153-162 | Fails unless the kernel index is pure. Fails unless the input index is a pair. Otherwise returns the input index without the kernel's reduction term. |
| CIndexAlgebra.WithoutSnoc | src/tsl/te/schedule/shape.cc:153-162 | Removing a term distributes over appending one term. |
| CIndexAlgebra.ConvFilterPair | src/tsl/te/schedule/shape.cc:153-162 | The filtered input pair keeps each component that differs from the reduction term, in order. |
| CIndexAlgebra.LutLookup | src/tsl/te/schedule/shape.cc:297-306 | Finds nothing exactly when no entry has the key. Otherwise returns the extent of the first entry with that key. |
| DecompContext.CreateEntry | src/tsl/te/schedule/decomp_stack.cc:12-19 | A new entry has the given factor and path variable, which is both its only leaf and its only variable. |
| DecompContext.CreateStack | src/tsl/te/schedule/decomp_stack.cc:21-25 | A new stack is empty and carries the given iteration type. |
| DecompContext.LookupSpec | src/tsl/te/schedule/decomp_stack.cc:38-46 | The lookup passes over the stacks whose base variable differs. It fails with NotFound past the end and with EmptyStack on an empty stack. Otherwise it returns the matching stack. |
| DecompContext.Find | src/tsl/te/schedule/decomp_stack.cc:38-46 | The loop computes the lookup; a found stack is non-empty, is in the context and matches the query. |
| TensorOps.ThreadAxis | src/te/tensor.cc:33-37 | A thread axis is a fresh iteration variable of kind thread-index. It has the given domain and tag, and an int32 variable named by the tag. |
| TensorOps.ReduceAxis | src/te/tensor.cc:33-37 | A reduction axis is a fresh commutative-reduce variable with the given domain and name and an empty tag. |
| TensorOps.TslPload | src/te/tensor.cc:48-52 | A compound read succeeds exactly when the producer is a TSL operation and the tensor's rank is zero or equals the index count. It yields a read of that tensor at those indices. |
| TensorOps.VarsRoundTrip | src/te/tensor.cc:56-62 | Turning variable lists into compound indices loses nothing: they convert back. |
| TensorOps.PloadVars | src/te/tensor.cc:56-62 | The variable-list overload is the compound read of the converted indices. |
| TensorOps.PureRoundTrip | src/te/tensor.cc:65-73 | Plain indices become one pure compound index each, and their heads give the indices back. |
| TensorOps.TslPLoad | src/te/tensor.cc:65-73 | A plain read succeeds exactly when the tensor's rank is zero or equals the index count. It reads the tensor at one pure compound index per index. |
| TensorOps.DecimalRoundTrip | src/te/tensor.cc:85-87 | The decimal rendering of a value index reads back as that value. |
| TensorOps.NameHintSpec | src/te/tensor.cc:85-87 | The name hint is the operation name for single-output operations. Different outputs of a multi-output operation get different hints. |
| TensorOps.Output | src/te/tensor.cc:89-102 | Output `i` exists exactly when `i` is below the output count. It carries the operation, index, dtype and shape. For TSL operations it adds the write shapes, all-ones read union shape and full read element shape. |
| TensorOps.OutputReadable | src/te/tensor.cc:48-52 | Any output of a TSL operation accepts a compound read with one index per dimension. |
| TslExprs.MakeAdd | src/tsl/tir/expr.cc:14-25 | An add succeeds exactly when both operands are defined and have the same dtype. The node has that dtype. |
| TslExprs.ValueMapKeys | src/tsl/tir/expr.cc:50-62 | The combiner's value map binds exactly the placeholders of its two argument lists. |
| TslExprs.ValueMapBinds | src/tsl/tir/expr.cc:50-62 | With distinct placeholders, each left placeholder maps to its left argument and each right placeholder to its right argument. |
| TslExprs.SubstituteEmpty | src/tsl/tir/expr.cc:50-62 | Substituting with the empty map changes nothing. |
| TslExprs.SubstituteRemoves | src/tsl/tir/expr.cc:50-62 | When no bound value mentions a bound placeholder, the substituted result mentions none either. |
| TslExprs.ApplyCombiner | src/tsl/tir/expr.cc:50-62 | Applying the combiner computes its specification and yields one value per result expression. |
| TslExprs.SumCombinerAdds | src/tsl/tir/op.cc:14-21 | The sum combiner applied to two values is their sum. |
| TslExprs.MakeReduce | src/tsl/tir/expr.cc:73-101 | The reduction constructor computes its specification. |
| TslExprs.ReduceSpecOk | src/tsl/tir/expr.cc:73-101 | A reduction is built exactly when: every axis is a commutative-reduce variable; the source is defined; no init is given; and the value index is in range. The reduction then has the selected source's element type, the given sources and axes, and a true condition unless one is given. |
| TslExprs.PropbackElemshape | src/tsl/tir/expr.cc:122-127 | An add hands its element shape to both operands, and a read has no operands. Any other node has no back-propagation rule. |
| TslExprs.PropbackPerOperand | src/tsl/tir/expr.cc:154-156 | Back-propagation yields one shape per operand, each equal to the node's own shape. |
| Positions.FindNodeRef | src/te/schedule/schedule_lang.cc:38-45 | Returns the first position of the element, or the length when it is absent. |
| Positions.SortPositions | src/te/schedule/schedule_lang.cc:382 | Sorting the leaf positions yields an increasing permutation of them. |
| Positions.ReorderedPermutes | src/te/schedule/schedule_lang.cc:375-385 | Writing the ordered variables into the sorted slots permutes the distinct leaves. |
| Positions.ReorderedPlaces | src/te/schedule/schedule_lang.cc:375-385 | After the reorder, the ordered variables appear in the requested order and occupy only slots that held ordered variables. |
| Positions.ReorderedBySlots | src/te/schedule/schedule_lang.cc:379-385 | A sequence that holds `order[k]` in the k-th sorted slot and the old leaves elsewhere is the reorder result. |
| DimCollect.GemmDimsDropContraction | src/tsl/te/schedule/shape.cc:97-125 | A product's index list is the left operand's non-contracted index, then the right operand's, for each transpose mode. |
| DimCollect.ConvDims | src/tsl/te/schedule/shape.cc:127-145 | A convolution's index list has four entries: the batch index of the input first and the output channel of the kernel last. |
| DimCollect.CollectFrame | src/tsl/te/schedule/shape.cc:62-145 | A successful walk changes no entry outside the visited nodes. |
| DimCollect.ConsistentFrame | src/tsl/te/schedule/shape.cc:62-145 | The operator rules read off a map depend only on the visited nodes' entries. |
| DimCollect.CollectConsistent | src/tsl/te/schedule/shape.cc:62-145 | After a successful walk every operator rule holds on the recorded map. A read keeps its own indices. An add's operands share one two-index list. A product and a convolution derive their lists from the operands. A reduction passes its source's list to the combiner. |
| DimCollect.ConsistentAdd | src/tsl/te/schedule/shape.cc:65-76 | After a successful walk, an add outside a combiner records its operands' common two-index list. |
| DimCollect.ConsistentGemm | src/tsl/te/schedule/shape.cc:97-125 | After a successful walk, a product records the non-contracted indices of its two-index operands. |
| DimCollect.ConsistentConv | src/tsl/te/schedule/shape.cc:127-145 | After a successful walk, a convolution records the convolution rule applied to its four-index operands. |
| DimCollect.ConsistentReduce | src/tsl/te/schedule/shape.cc:82-96 | After a successful walk, a reduction records its source's list, and so do the combiner's result and placeholders. |
| DimCollect.DimsOfConsistent | src/tsl/te/schedule/shape.cc:165-169 | The dimension map of a well-formed expression satisfies every operator rule. |
| DimCollect.Collector.constructor | src/tsl/te/schedule/shape.cc:165-169 | A new collector starts with an empty map, outside any combiner. |
| DimCollect.Collector.Visit | src/tsl/te/schedule/shape.cc:62-145 | The in-place visitor succeeds exactly when the walk succeeds. It leaves the collector in the walk's final state, or reports the walk's error. |
| DimCollect.Collector.VisitAdd | src/tsl/te/schedule/shape.cc:65-76 | The add visitor computes the walk on an add node. |
| DimCollect.Collector.VisitReduce | src/tsl/te/schedule/shape.cc:82-96 | The reduction visitor computes the walk on a reduction node. |
| DimCollect.Collector.VisitGemm | src/tsl/te/schedule/shape.cc:97-125 | The product visitor computes the walk on a product node. |
| DimCollect.Collector.VisitConv | src/tsl/te/schedule/shape.cc:127-145 | The convolution visitor computes the walk on a convolution node. |
| DimCollect.ConvOutDims | src/tsl/te/schedule/shape.cc:127-145 | The convolution output list computes the convolution rule. |
| DimCollect.CollectDim | src/tsl/te/schedule/shape.cc:165-169 | `CollectDim` returns the dimension map of the expression, or the walk's error. |
| ShapeInfer.Touch | src/tsl/te/schedule/shape.cc:190-204 | Visiting a node gives it an entry, which starts empty, and leaves an existing entry as it is. |
| ShapeInfer.OperandShapeSpec | src/tsl/te/schedule/shape.cc:206-243 | An operand's extents exist exactly when every dimension's extent does. An impure compound index makes the operand fail. |
| ShapeInfer.IndexOfPresent | src/tsl/te/schedule/shape.cc:206-243 | Searching a present index finds it. |
| ShapeInfer.InitExtentsSpec | src/tsl/te/schedule/shape.cc:309-320 | The root's extents exist exactly when every root index is pure and has a non-empty stack of the common depth. Each extent is that stack's finest factor. |
| ShapeInfer.ReachedVisited | src/tsl/te/schedule/shape.cc:183-248 | The agent reaches no node the collector does not visit. |
| ShapeInfer.InferFrame | src/tsl/te/schedule/shape.cc:190-248 | The agent changes no entry outside the nodes it reaches. |
| ShapeInfer.AgentRulesFrame | src/tsl/te/schedule/shape.cc:190-248 | The agent's rules depend only on the reached nodes' entries. |
| ShapeInfer.InferRules | src/tsl/te/schedule/shape.cc:190-248 | After a successful agent walk the rules hold. An add's operands get its extents. A product's operands get, per dimension, the product's extent for the same index, or else the finest factor of that variable's stack. |
| ShapeInfer.InferRulesAdd | src/tsl/te/schedule/shape.cc:195-204 | After a successful agent walk, both operands of an add carry the add's extents. |
| ShapeInfer.InferRulesGemm | src/tsl/te/schedule/shape.cc:206-243 | After a successful agent walk, each operand of a product carries the extents of the product rule. |
| ShapeInfer.InferShapeRules | src/tsl/te/schedule/shape.cc:270-274 | A successful inference of a well-formed body satisfies both passes' rules. The root carries its initial extents. |
| ShapeInfer.ShapeAgent.constructor | src/tsl/te/schedule/shape.cc:173-180 | A new agent holds the body and the decomposition context, with empty maps. |
| ShapeInfer.ShapeAgent.Run | src/tsl/te/schedule/shape.cc:183-188 | Running the agent collects the dimensions, computes the root's extents and walks the body. It leaves exactly that walk's result, or its first error. |
| ShapeInfer.ShapeAgent.ExtractInit | src/tsl/te/schedule/shape.cc:309-320 | The loop computes the root's initial extents. |
| ShapeInfer.ShapeAgent.OperandExtents | src/tsl/te/schedule/shape.cc:206-243 | The loop computes an operand's extents by the product rule. |
| ShapeInfer.ShapeAgent.Visit | src/tsl/te/schedule/shape.cc:190-248 | The in-place visitor computes the agent's walk, or reports its error. |
| ShapeInfer.ShapeAgent.VisitAdd | src/tsl/te/schedule/shape.cc:195-204 | The add visitor computes the agent's walk on an add. |
| ShapeInfer.ShapeAgent.VisitGemm | src/tsl/te/schedule/shape.cc:206-243 | The product visitor computes the agent's walk on a product. |
| ShapeInfer.InferShape | src/tsl/te/schedule/shape.cc:270-274 | `InferShape` returns the extent map of the specification, or its first error. |
| IvarShape.VarPos | src/tsl/te/schedule/ivar_visitor.cc:12-20 | The position is the first requested variable with that loop variable, or the length. |
| IvarShape.FindVar | src/tsl/te/schedule/ivar_visitor.cc:12-20 | The search loop returns the first matching position, or the length exactly when none matches. |
| IvarShape.RecordOne | src/tsl/te/schedule/ivar_visitor.cc:37-46 | An impure index is skipped, and a pure index on a non-variable fails. An unrequested variable is skipped. A dimension past the shape fails. A first sighting records the extent; a later one must agree. |
| IvarShape.RecordFromGrows | src/tsl/te/schedule/ivar_visitor.cc:33-46 | Recording one read only adds entries, and only for requested variables. |
| IvarShape.WalkGrows | src/tsl/te/schedule/ivar_visitor.cc:22-56 | A successful walk only adds entries, and only for requested variables. |
| IvarShape.WalkAllGrows | src/tsl/te/schedule/ivar_visitor.cc:53-55 | Walking every body expression only adds entries for requested variables. |
| IvarShape.CoveredExtends | src/tsl/te/schedule/ivar_visitor.cc:42-44 | Agreement with every read survives adding entries. |
| IvarShape.RecordFromCovers | src/tsl/te/schedule/ivar_visitor.cc:37-46 | After recording a read, every requested pure index of it has the read's extent. |
| IvarShape.WalkCovers | src/tsl/te/schedule/ivar_visitor.cc:22-56 | After a successful walk, every read of the expression agrees with the map. |
| IvarShape.WalkAllCovers | src/tsl/te/schedule/ivar_visitor.cc:53-55 | After walking the body, every read in it agrees with the map. |
| IvarShape.WalkStable | src/tsl/te/schedule/ivar_visitor.cc:22-56 | Walking an expression that already agrees with the map changes nothing. |
| IvarShape.WalkAllStable | src/tsl/te/schedule/ivar_visitor.cc:53-55 | Walking a body that already agrees with the map changes nothing. |
| IvarShape.ExtractSpec | src/tsl/te/schedule/ivar_visitor.cc:22-56 | A successful extraction only adds entries for requested variables. Every read agrees with the result, and a second extraction is a no-op. |
| IvarShape.IvarShapeOut.constructor | src/tsl/te/schedule/ivar_visitor.cc:22-56 | The output map starts with the given entries. |
| IvarShape.VisitLoad | src/tsl/te/schedule/ivar_visitor.cc:22-46 | Visiting one read updates the map as the read's specification says, or reports its error. |
| IvarShape.PostOrderVisit | src/tsl/te/schedule/ivar_visitor.cc:22-56 | The post-order visitor computes the walk in place. |
| IvarShape.VisitPair | src/tsl/te/schedule/ivar_visitor.cc:22-56 | A binary node's visit walks its left operand, then its right one. |
| IvarShape.VisitAll | src/tsl/te/schedule/ivar_visitor.cc:53-55 | The body loop walks every body expression in order. |
| IvarShape.ExtractRootPathIvarShape | src/tsl/te/schedule/ivar_visitor.cc:22-56 | The extraction fills the map object with the specification's result, or reports its error. |
| Scenarios.GemmStage | test_code/gemm_tsl.cc:36-50 | For the reduced matrix product, the product and the reduction are both indexed by the pair of output variables. The reduction gets the finest factors of those two stacks. |
| Scenarios.TwoStackInit | src/tsl/te/schedule/shape.cc:309-320 | Two pure root indices over stacks of equal depth get their stacks' finest factors. |
| Scenarios.AddStage | test_code/add_tsl.cc:76-97 | A twice-decomposed element-wise add gets the finest factors at the root, and both reads inherit them. |
| Scenarios.ConvStage | test_code/conv_tsl.cc:44-66 | The convolution's output is indexed by batch, the two spatial indices without their kernel terms, and the output channel. |
| Scenarios.ConvStageCollapsed | src/tsl/te/schedule/shape.cc:153-162 | When a spatial index is the kernel term itself, that output dimension is the empty index. |
| Scenarios.ConvCollect | src/tsl/te/schedule/shape.cc:127-145 | The collector on a convolution records both reads' indices and then applies the convolution rule. |
| Ir.Rank | src/te/schedule/schedule_lang.cc:310-311 | Iteration kinds are numbered in their declaration order. |
| Ir.MaxType | src/te/schedule/schedule_lang.cc:310-311 | The fused kind is the larger of the two kinds, and is one of them. |
| StageSched.ApplyUpdate | src/te/schedule/schedule_lang.cc:397-414 | Each attribute update sets exactly its own field and keeps the pragma keys paired with their values and the prefetch tensors with their offsets. |
| StageSched.LeafPos | src/te/schedule/schedule_lang.cc:47-57 | A leaf is found at its first position. A non-leaf fails as already split when it is in the schedule, and as not in the schedule otherwise. |
| StageSched.FindLeafVar | src/te/schedule/schedule_lang.cc:47-57 | The search computes the leaf lookup. |
| StageSched.MatchFrom | src/te/schedule/schedule_lang.cc:59-67 | The match succeeds exactly when every type is a scalar integer. It yields an integer as wide as the widest. |
| StageSched.MatchDataType | src/te/schedule/schedule_lang.cc:59-67 | The loop computes the match. |
| StageSched.NonOpaqueElems | src/te/schedule/schedule_lang.cc:99-107 | The clean leaves are exactly the non-opaque root variables, and are distinct when the roots are. |
| StageSched.CleanLeaves | src/te/schedule/schedule_lang.cc:99-107 | The loop keeps the non-opaque variables in order. |
| StageSched.SplitLeaves | src/te/schedule/schedule_lang.cc:88-90 | A split replaces the parent's slot by the outer variable then the inner one, and keeps the other leaves in place. |
| StageSched.SplitKeepsSpace | src/te/schedule/schedule_lang.cc:69-91 | A split keeps the leaves distinct and inside the variable list. |
| StageSched.FuseLeaves | src/te/schedule/schedule_lang.cc:302-335 | A fuse replaces two adjacent leaves by the fused variable and keeps the rest in place. |
| StageSched.FuseKeepsSpace | src/te/schedule/schedule_lang.cc:302-335 | A fuse keeps the leaves distinct and inside the variable list. The new leaves are the fused variable and the old leaves other than the two fused. |
| StageSched.SplitCheck | src/te/schedule/schedule_lang.cc:72-82 | A split is allowed exactly for a splittable kind on a leaf. It fails with CannotSplit first. |
| StageSched.FuseCheck | src/te/schedule/schedule_lang.cc:302-335 | A fuse is allowed exactly for two splittable leaves of integer type that are adjacent leaves, in either order. |
| StageSched.FuseSlot | src/te/schedule/schedule_lang.cc:302-335 | The position checks compute the fuse check. |
| StageSched.CheckOrder | src/te/schedule/schedule_lang.cc:363-370 | The order passes exactly when every variable is reorderable and none repeats. |
| StageSched.OrderPositions | src/te/schedule/schedule_lang.cc:375-377 | The positions exist exactly when every ordered variable is a leaf. Each is that leaf's first position. |
| StageSched.ReorderSpec | src/te/schedule/schedule_lang.cc:360-387 | A reorder succeeds exactly when the order is distinct, reorderable and made of leaves. It keeps the leaf count. |
| StageSched.ReorderSpecValue | src/te/schedule/schedule_lang.cc:375-385 | The reorder result writes the ordered variables into the sorted leaf positions. |
| StageSched.ReorderPermutes | src/te/schedule/schedule_lang.cc:360-387 | On distinct leaves a reorder is a permutation that puts the ordered variables in the requested order. |
| StageSched.CheckOrderLoop | src/te/schedule/schedule_lang.cc:363-370 | The loop computes the order check. |
| StageSched.LeafPositions | src/te/schedule/schedule_lang.cc:375-377 | The loop computes the leaf positions. |
| StageSched.ApplyOrder | src/te/schedule/schedule_lang.cc:378-385 | Sorting the positions and writing the ordered variables computes the reorder. |
| StageSched.WriteSlots | src/te/schedule/schedule_lang.cc:383-385 | Each slot receives its value, and every other element is kept. |
| StageSched.LevelZeroStep | src/te/schedule/schedule_lang.cc:122-141 | Adding a root and its level-0 pair keeps the leaves distinct and inside the variable list. |
| StageSched.OpaqueStep | src/te/schedule/schedule_lang.cc:122-124 | Adding an opaque root keeps the leaves distinct and inside the variable list. |
| StageSched.AppendPair | src/te/schedule/schedule_lang.cc:128-133 | A non-opaque root gets fresh left and right variables. The variable list grows by the root and the pair, and the leaves by the pair. |
| StageSched.LeftRight | src/te/schedule/schedule_lang.cc:128-129 | The left/right pair of a level are fresh variables of the parent's kind, named with the level suffix. |
| StageSched.LevelZeroNext | src/te/schedule/schedule_lang.cc:122-141 | One step of the TSL stage constructor's loop keeps the level-0 invariant. |
| StageSched.LevelZero | src/te/schedule/schedule_lang.cc:118-142 | Level 0 splits every non-opaque root into a fresh left/right pair with factor 1. Its leaves are the pairs in order, and they are distinct when the roots are. |
| StageSched.FactorCheck | src/te/schedule/schedule_lang.cc:586-590 | The factors pass exactly when each is below the top factor of its dimension and divides it; the model also demands a positive factor (see "## Left out"). |
| StageSched.DecomposeCheck | src/te/schedule/schedule_lang.cc:576-590 | Decomposition is allowed exactly for a TSL compute operation with a stack and one factor per output dimension, and when the factors pass. |
| StageSched.NewAxes | src/te/schedule/schedule_lang.cc:595-599 | Each new axis is fresh, has a domain from zero to the union extent, and keeps the old axis's variable, kind and tag. |
| StageSched.EraseFirstDistinct | src/te/schedule/schedule_lang.cc:530-532 | Erasing a leaf from distinct leaves removes exactly that leaf. |
| StageSched.EraseLeftsDistinct | src/te/schedule/schedule_lang.cc:527-535 | Erasing the left variables succeeds exactly when each is a non-reduction leaf. It keeps the remaining leaves distinct. |
| StageSched.LeftsOkStep | src/te/schedule/schedule_lang.cc:527-535 | Erasing the left variables is possible exactly when the first one is a non-reduction leaf and the rest can be erased from the remainder. |
| StageSched.SplitLefts | src/te/schedule/schedule_lang.cc:527-550 | The push loop succeeds exactly when every left variable is a non-reduction leaf. Each is then split into a fresh pair by the ratio of the two levels' factors. On failure the first failing variable gives the error (reduction first, then missing leaf), and the variables before it are already erased and split. |
| StageSched.EraseLeftsConcat | src/te/schedule/schedule_lang.cc:527-535 | Erasing the left variables `a + b` is erasing `a` and then `b` from what remains, or the failure of `a`. |
| StageSched.RebaseAllOk | src/te/schedule/schedule_lang.cc:555-568 | Rebasing succeeds exactly when every old bottom-level relation is present. Each is then replaced in place by the same split of the new axis. |
| StageSched.RebaseBottom | src/te/schedule/schedule_lang.cc:552-568 | The bottom-level loop fails on an axis-count mismatch with nothing rebased, and otherwise computes the rebasing. When a relation is missing, the ones before it are already rebased in the relation list and in level 0, and the rest of level 0 is unchanged. |
| StageSched.RebaseNext | src/te/schedule/schedule_lang.cc:556-567 | One step of the bottom-level loop: it finds the old relation exactly when it is present, and then replaces it in place by the split of the new axis. A missing relation leaves everything as it was. |
| StageSched.RebaseAllConcat | src/te/schedule/schedule_lang.cc:555-568 | Rebasing `a + b` is rebasing `a` and then `b`, or the failure of `a`. |
| StageSched.PushCheck | src/te/schedule/schedule_lang.cc:519-569 | The push fails only with a factor-count, reduction, missing-leaf, axis-count or missing-relation error. |
| StageSched.PushValues | src/te/schedule/schedule_lang.cc:519-569 | The push succeeds exactly when its check passes, and then yields the pushed level and the rebased bottom. On failure it yields the check's error and the lists as far as the update had got (as for `PushLevel`). |
| StageSched.PushRebase | src/te/schedule/schedule_lang.cc:551-568 | After the pairs are placed, pushing the entry and rebasing the bottom succeeds exactly when the push check passes. A failure is an axis-count mismatch with the entry pushed, or a missing relation with the earlier ones rebased. |
| StageSched.StoppedInRebase | src/te/schedule/schedule_lang.cc:551-568 | A push that stops at the axis-count check or at a missing bottom relation leaves the state described for those failures. |
| StageSched.PushedAfterRebase | src/te/schedule/schedule_lang.cc:551-568 | A complete rebase after the placed pairs is a pushed level whose left and right variables are the new pairs. |
| StageSched.PushCheckPasses | src/te/schedule/schedule_lang.cc:519-569 | When the new axes are not bottom-level parents, the push check reduces to the leaf and axis-count checks. |
| StageSched.DecompSpaceOk | src/te/schedule/schedule_lang.cc:527-550 | The push keeps the leaves distinct and inside the variable list. |
| StageSched.NewSplitsAvoid | src/te/schedule/schedule_lang.cc:545-568 | The relations a push creates are never among the old bottom-level relations. |
| StageSched.Stage.constructor | src/te/schedule/schedule_lang.cc:93-109 | A plain stage starts with its operation, all root variables and the non-opaque ones as leaves. It is attached at the group root and has no decomposition. |
| StageSched.Stage.Tsl | src/te/schedule/schedule_lang.cc:111-144 | A TSL stage starts with one level-0 decomposition entry whose factors are the output element shape. Its leaves are the level-0 pairs. |
| StageSched.Stage.Group | src/te/schedule/schedule_lang.cc:797 | A group stage has no operation, variables or decomposition, and starts at the group root. |
| StageSched.Stage.Copy | src/te/schedule/schedule_lang.cc:674-677 | A copied stage has every field of the original. |
| StageSched.Stage.SplitHelper | src/te/schedule/schedule_lang.cc:69-91 | A split succeeds exactly when its check passes; a failure changes nothing. On success it appends fresh `.outer`/`.inner` variables and the split relation, and replaces the parent leaf by the pair. |
| StageSched.Stage.Split | src/te/schedule/schedule_lang.cc:290-294 | A split by factor is the split helper with that factor. |
| StageSched.Stage.SplitByNParts | src/te/schedule/schedule_lang.cc:296-300 | A split by part count is the split helper with that count. |
| StageSched.Stage.Fuse | src/te/schedule/schedule_lang.cc:302-335 | A fuse succeeds exactly when its check passes. It creates a fresh `.fused` variable of the matched integer type and the larger kind, and replaces the two leaves by it. |
| StageSched.Stage.FuseNext | src/te/schedule/schedule_lang.cc:302-335 | One step of the multi-axis fuse is a fuse of the accumulated variable with the next axis: it succeeds exactly when the fuse checks pass, with their error otherwise and no change; on success the fused variable, its name, kind and integer type, the new leaf and variable lists and the recorded relation are those of the single fuse. |
| StageSched.Stage.FuseAll | src/te/schedule/schedule_lang.cc:337-358 | No axes yield a fresh one-iteration `singleton` leaf in front, with its relation. One axis is returned as it is, with nothing changed. Several axes form a chain of fuse steps from left to right: step k fuses the variable built so far with axis k + 1 as a single fuse does, and appends its fuse relation in order. The result is the last fused variable exactly when every step's checks pass; otherwise the error is that of the first failing step, and the earlier steps stay applied. |
| StageSched.Stage.FuseFrom | src/te/schedule/schedule_lang.cc:338-343 | The fuse loop over one or more axes: a chain of fuse steps as stated for `FuseAll`, with the first failing step's error. |
| StageSched.Stage.FuseNone | src/te/schedule/schedule_lang.cc:344-355 | Fusing no axis adds a fresh one-iteration data-parallel variable `singleton` of 32-bit integer type as the outermost leaf, appends it to the variables and records its singleton relation. |
| StageSched.Stage.Reorder | src/te/schedule/schedule_lang.cc:360-387 | The leaves become the reorder specification's result, or stay unchanged on its error. The stage stays well-formed. |
| StageSched.Stage.TileSplits | src/te/schedule/schedule_lang.cc:389-392 | The two splits of a tile succeed exactly for two distinct splittable leaves. They record a split of `x` by `xFactor` and then of `y` by `yFactor`, add x.outer, x.inner, y.outer, y.inner to the variables, and leave all four as leaves. |
| StageSched.Stage.TileSecond | src/te/schedule/schedule_lang.cc:392 | After `x` is split, the split of `y` succeeds exactly for a splittable leaf `y` other than `x`. It records the split of `y` by `yFactor`, keeps the four new variables as leaves and, when `x` precedes `y`, yields the two-slot layout. |
| StageSched.Stage.Tile | src/te/schedule/schedule_lang.cc:389-395 | A tile succeeds exactly for two distinct data-parallel or reduction leaves. It records the split of `x` by `xFactor` and of `y` by `yFactor` and adds x.outer, x.inner, y.outer, y.inner to the variables. When `x` precedes `y` it lays out x.outer, y.outer, x.inner, y.inner in the two slots. |
| StageSched.TileOrderOk | src/te/schedule/schedule_lang.cc:393 | The tile's reorder succeeds on its four distinct reorderable leaves. |
| StageSched.TileLayout | src/te/schedule/schedule_lang.cc:391-392 | Splitting `x` then `y` puts each pair in its parent's slot. |
| StageSched.TileSlots | src/te/schedule/schedule_lang.cc:393 | Reordering the split leaves swaps the two inner/outer variables between the slots. |
| StageSched.TileReorder | src/te/schedule/schedule_lang.cc:389-395 | The tile's reorder result is the two-slot layout with the outers first. |
| StageSched.Stage.UpdateIterVarAttr | src/te/schedule/schedule_lang.cc:397-414 | Fails with the leaf lookup's error when a leaf is required and absent. Otherwise it applies the update to the variable's attribute, a default one when absent. |
| StageSched.Stage.Bind | src/te/schedule/schedule_lang.cc:241-265 | Binds a data-parallel or reduction leaf to a thread-index axis, and fails otherwise with CannotBind or NotThreadAxis. |
| StageSched.Stage.Vectorize | src/te/schedule/schedule_lang.cc:420-427 | Marks a vectorizable leaf as vectorized, and fails otherwise. |
| StageSched.Stage.Tensorize | src/te/schedule/schedule_lang.cc:429-435 | Marks a leaf as tensorized with the intrinsic. |
| StageSched.Stage.Unroll | src/te/schedule/schedule_lang.cc:437-440 | Marks a leaf as unrolled. |
| StageSched.Stage.Parallel | src/te/schedule/schedule_lang.cc:442-445 | Marks a leaf as parallelized. |
| StageSched.Stage.Pragma | src/te/schedule/schedule_lang.cc:447-460 | "unroll" and "vectorize" become the kind changes. Any other pragma is appended to the leaf's pragma keys and values. |
| StageSched.Stage.Prefetch | src/te/schedule/schedule_lang.cc:462-478 | Appends the tensor and offset to the leaf's prefetch lists. |
| StageSched.Stage.StorageAlign | src/te/schedule/schedule_lang.cc:480-489 | Records the alignment factor and offset on the axis, which need not be a leaf. |
| StageSched.Stage.DoubleBuffer | src/te/schedule/schedule_lang.cc:491-496 | Enables double buffering exactly for non-output stages. |
| StageSched.Stage.PushLevel | src/te/schedule/schedule_lang.cc:519-569 | Pushes a decomposition level exactly when the push check passes, and fails with the check's error otherwise. A failure leaves the lists as far as the in-place update had got. A factor-count mismatch changes nothing. A reduction or missing left variable leaves the earlier left variables erased and split, with their pairs and relations appended. An axis-count mismatch leaves the new level pushed with all its pairs and splits. A missing bottom relation leaves the relations before it rebased, both in the relation list and in level 0. |
| StageSched.Stage.Decompose | src/te/schedule/schedule_lang.cc:571-612 | A failed check of `decompose` itself gives that check's error and changes nothing. A failed push keeps the operation and leaves the lists as `PushLevel` describes, on the new axes built from the old axes' variables. Otherwise it replaces the operation by a fresh decomposed one and pushes one level whose right variables it returns. It succeeds exactly when the decomposition and push checks pass. |
| StageSched.Stage.DecomposeChecked | src/te/schedule/schedule_lang.cc:594-611 | After `decompose`'s own checks pass: the push result, the partial update on failure, and on success the new operation and pushed level, as stated for `Decompose`. |
| StageSched.DecomposedOp | src/te/schedule/schedule_lang.cc:594-603 | The new operation is fresh, keeps the name, tag, attributes and body, and has fresh axes over the old variables with the divided extents. |
| StageSched.DecomposeOkPush | src/te/schedule/schedule_lang.cc:571-612 | Once `decompose`'s own checks pass, it succeeds exactly when the push check passes on the new axes. |
| StageSched.Stage.EnvThreads | src/te/schedule/schedule_lang.cc:267-282 | Allowed only once and only on scan stages. It puts the threads in front of the leaves and at the end of all variables. |
| StageSched.EnvThreadsKeepSpace | src/te/schedule/schedule_lang.cc:267-282 | Adding fresh distinct threads keeps the leaves distinct and inside the variable list. |
| StageSched.ChainBelow | src/te/schedule/schedule_lang.cc:732-747 | Every group on a stage's group chain is the stage itself or strictly shallower. |
| StageSched.ChainAntisymmetric | src/te/schedule/schedule_lang.cc:732-747 | Two stages each on the other's chain are the same stage. |
| StageSched.ChainTransitive | src/te/schedule/schedule_lang.cc:732-747 | A group on the chain of a group on a chain is on that chain. |
| StageSched.Lca | src/te/schedule/schedule_lang.cc:732-747 | The ancestor, when found, is one of the two groups and lies on both chains. Nothing is found for two defined groups only when neither is on the other's chain. |
| StageSched.LcaSymmetric | src/te/schedule/schedule_lang.cc:732-747 | The ancestor does not depend on the argument order. |
| StageSched.OnChain | src/te/schedule/schedule_lang.cc:737-745 | The chain walk finds the group exactly when it is on the chain. |
| StageSched.AttachSpecOf | src/te/schedule/schedule_lang.cc:189-195 | The attach specification lies on the stage's group chain and is not a group root inside a group. |
| StageSched.Stage.GetAttachSpec | src/te/schedule/schedule_lang.cc:189-195 | The loop computes the attach specification. |
| StageSched.Stage.ComputeAt | src/te/schedule/schedule_lang.cc:202-227 | Fails on scan-update stages. Fails when the stage's group is not on the parent's chain. Otherwise it attaches at the scope. |
| StageSched.Stage.ComputeInline | src/te/schedule/schedule_lang.cc:229-233 | Inlines any stage that is not a scan update. |
| StageSched.Stage.ComputeRoot | src/te/schedule/schedule_lang.cc:235-239 | Moves any stage that is not a scan update to the group root. |
| Sched.LeastCommonAncestor | src/te/schedule/schedule_lang.cc:732-747 | The two loops compute the ancestor. |
| Sched.LcaFoldCommon | src/te/schedule/schedule_lang.cc:782-791 | The folded parent group lies on every member group's chain. |
| Sched.ParentGroup | src/te/schedule/schedule_lang.cc:782-791 | The first loop computes the fold of the members' groups. |
| Sched.AboveClosed | src/te/schedule/schedule_lang.cc:812-822 | The groups above the members are closed under taking the parent group. |
| Sched.CountMembers | src/te/schedule/schedule_lang.cc:782-795 | The counter holds exactly the members' groups, each counted once per member directly in it. |
| Sched.Propagate | src/te/schedule/schedule_lang.cc:804-822 | Propagation only grows the counts and only touches groups above the members. A group not counted before is never the parent. |
| Sched.RemapKeys | src/te/schedule/schedule_lang.cc:824-836 | The verification succeeds exactly when every counted group other than the parent is full. Full groups directly in the parent move into the new group. |
| Sched.RemapKey | src/te/schedule/schedule_lang.cc:825-835 | One verification step fails exactly on a non-parent group that is not full. A full group directly in the parent moves into the new group. |
| Sched.RemapMembers | src/te/schedule/schedule_lang.cc:838-849 | The member stages directly in the parent move into the new group. Every other stage keeps its group, and the child counts follow. |
| Sched.Reparent | src/te/schedule/schedule_lang.cc:829-834 | One stage moves from the parent into the new group, and the counts follow. |
| Sched.LcaWithGroup | src/te/schedule/schedule_lang.cc:856-857 | The ancestor with the new group is the new group exactly when the new group is on the chain. |
| Sched.CorrectAttach | src/te/schedule/schedule_lang.cc:851-863 | Members attached at a scope outside the new group move to the group root; every other attachment is kept. |
| Sched.GroupCounts | src/te/schedule/schedule_lang.cc:782-822 | The counting phase yields the folded parent group and counts that cover every member group. |
| Sched.DirectAbove | src/te/schedule/schedule_lang.cc:792-795 | Every counted member group is among the groups above the members. |
| Sched.NewGroup | src/te/schedule/schedule_lang.cc:797-801 | The new group is a fresh group stage below the parent, and the parent counts it. |
| Sched.Regroup | src/te/schedule/schedule_lang.cc:797-863 | The group succeeds exactly when every counted non-parent group is full. It then moves the full subgroups and the members and fixes the attachments. |
| Sched.Rehang | src/te/schedule/schedule_lang.cc:823-863 | Verification, remapping and attach correction together establish the grouped state. |
| Sched.CheckCache | src/te/schedule/schedule_lang.cc:871-879 | The cache check holds exactly when every stage has an operation and no two share one. |
| Sched.StageOf | src/te/schedule/schedule_lang.cc:784-786 | The lookup finds a stage exactly when some stage has the operation, and the stage found has it. |
| Sched.StagesOf | src/te/schedule/schedule_lang.cc:782-786 | Looking up every operation succeeds exactly when each has a stage, and otherwise fails with StageNotFound. |
| Sched.MemberStages | src/te/schedule/schedule_lang.cc:767-786 | An inconsistent cache fails with CacheMismatch. Otherwise the lookup of every operation's stage succeeds or fails as above. |
| Sched.CachedStageUnique | src/te/schedule/schedule_lang.cc:871-879 | With a consistent cache, two stages with the same operation are the same stage. |
| Sched.Schedule.constructor | src/te/schedule/schedule_lang.cc:683-684 | A schedule holds the given outputs, stages, groups and stage map. |
| Sched.Schedule.CreateGroup | src/te/schedule/schedule_lang.cc:764-867 | Fails on an inconsistent cache or a missing stage, changing nothing. It fails with GroupIntersects exactly when a counted group is not full. Otherwise it appends a fresh group with the members and full subgroups below the parent, recounted and re-attached. |
| Sched.Schedule.Group | src/te/schedule/schedule_lang.cc:782-866 | Grouping the member stages computes the parent fold and the counts, then regroups. |
| Sched.Schedule.AddGroup | src/te/schedule/schedule_lang.cc:797-866 | Regrouping succeeds exactly when every counted non-parent group is full. The new group is then appended to the groups. |
| Sched.Remap | src/te/schedule/schedule_lang.cc:701-720 | A known reference maps to a reference among the copies, defined exactly when the original is. |
| Sched.CopyMapStep | src/te/schedule/schedule_lang.cc:686-695 | Adding one stage and its copy keeps the copy map: each original maps to its last copy. |
| Sched.CopyStages | src/te/schedule/schedule_lang.cc:686-695 | Every stage and group gets a fresh distinct copy with the same fields, and the copy map sends each original to its copy. |
| Sched.RemapStageMap | src/te/schedule/schedule_lang.cc:697-699 | The stage map can be remapped exactly when every stage in it was copied. Each operation then maps to the copy of its stage. |
| Sched.RelinkOne | src/te/schedule/schedule_lang.cc:700-720 | Relinking one copy sends its attach stage and group to their copies and leaves the other copies alone. |
| Sched.RelinkCopies | src/te/schedule/schedule_lang.cc:700-721 | Relinking succeeds exactly when every attach stage and group of the originals was copied. Every copy then refers to copies. |
| Sched.CopyPool | src/te/schedule/schedule_lang.cc:686-721 | The copying succeeds exactly when the stages are closed under their references and the stage map. |
| Sched.CopyClosed | src/te/schedule/schedule_lang.cc:679-723 | A relinked copy of a closed schedule is itself closed. |
| Sched.Schedule.Copy | src/te/schedule/schedule_lang.cc:679-723 | A copy succeeds exactly when the schedule is closed, and fails otherwise with StageNotFound. On success the new schedule has fresh copies of every stage and group with relinked references, and the remapped stage map. |
| SpecCond.SpecializedCondition.constructor | src/te/schedule/schedule_lang.cc:967-971 | A condition holds the given clauses. |
| SpecCond.Step | src/te/schedule/schedule_lang.cc:982-992 | Entering pushes the condition. Leaving succeeds exactly when it is the innermost condition, and pops it. An empty stack fails. |
| SpecCond.RunAppend | src/te/schedule/schedule_lang.cc:982-992 | Running two event lists in sequence is running their concatenation. |
| SpecCond.WithScope | src/te/schedule/schedule_lang.cc:982-992 | A scope around a balanced body restores the stack. |
| SpecCond.ExitOtherFails | src/te/schedule/schedule_lang.cc:987-992 | Leaving a condition that is not innermost fails, as does leaving on an empty stack. |
| SpecCond.ConditionStack.constructor | src/te/schedule/schedule_lang.cc:982-1001 | The stack starts empty. |
| SpecCond.ConditionStack.Enter | src/te/schedule/schedule_lang.cc:982-985 | The condition becomes the innermost one. |
| SpecCond.ConditionStack.Exit | src/te/schedule/schedule_lang.cc:987-992 | Pops the innermost condition when it is the one left. Otherwise it fails and keeps the stack. |
| SpecCond.ConditionStack.Current | src/te/schedule/schedule_lang.cc:994-1001 | Returns the innermost condition, or nothing on an empty stack. |

## Left out

- Sub-graph extraction (`GetSubGraph` and `RemapTensor`, src/te/schedule/schedule_lang.cc:749-771) is out of the model: `create_group` takes its member operations as a parameter.
- The `Schedule` constructor is out of the model. So are `set_scope`, the printers, the debug dumps, the standard-output messages of `decompose` and the warning logs.
- The arithmetic analyzer is replaced by concrete integer arithmetic. Extents and factors are plain integers, with no symbolic simplification.
- Relinking the readers of a decomposed operation (src/te/schedule/schedule_lang.cc:614-639) is out of the model. The `ComputeOp` constructor it calls is not part of this model.
- The thread-local store of specialized conditions is one `ConditionStack` object, with no threads.
- The source's unordered maps have an unspecified iteration order; the model iterates them in insertion order. The group counter's keys and the remap loop of `create_group` depend on that order only through which subgroup a failure is reported for. The copy map's order does not change the result.
- Sched.Schedule.CreateGroup: the operation-to-stage cache is rebuilt on every call and checked as a whole. The source returns early when the cache size already matches the stage count, so a stale cache is not modelled.
- Sched.Schedule.CreateGroup: the state after a GroupIntersects failure is left unspecified, because the source aborts with some groups already changed.
- Sched.Schedule.CreateGroup: requires every stage's attach stage to be a stage of the schedule with a well-founded group chain (`AttachOk`, `GroupsOk`). The source dereferences the attach stage without a check.
- Sched.Propagate: proved sound (counts only grow, only for groups above the members, never for the parent), not complete. It is not proved that every full group's count reaches its child count.
- Sched.Schedule.Copy: does not state the closure of the new schedule itself. The lemma Sched.CopyClosed states it. On a failure the partially relinked copies are not described.
- StageSched.Lca: like the source, returns nothing for two defined groups that are on separate branches (siblings). This is the source's behaviour, not the least common ancestor.
- StageSched.Stage.Tile: states the leaf layout only when `x` precedes `y` among the leaves. The other order is covered only by the success condition.
- StageSched.FactorCheck: factors are taken to be positive tile sizes. A negative factor that divides the top factor (-4 under 32) passes the source's checks but is rejected here with NonEven. A zero factor is an error in both: a fatal division by zero in the source, NonEven here.
- StageSched.ReorderPermutes: the permutation and order are proved for distinct leaves. Duplicate leaves cannot arise from the modelled primitives.
- StageSched.Stage.Decompose: the decomposed operation keeps the body. The new union and element shapes are stated, but the reader operations are not updated.
- ShapeInfer.AgentBody: a body that is none of add, read or reduce is an `UnsupportedBody` error. In the source, the runtime downcast (src/tsl/tir/ir/tsl_downcast.cc:15-19) runs off the end of the function there, which is undefined behaviour.
- TslExprs.ReduceSpecOk: an init list must be empty. The source accepts an init made only of integer constants, float constants or plain tensor reads, and no TSL expression node is one of those, so every non-empty init fails.
- Floating-point values, data layouts and lowering are outside the modelled core.
