# Graph-neural keyword spotting: the discrete core of `models/base_gnn.py`

The keyword-spotting models turn each utterance into a graph. Every
MFCC frame is a node of the node set `"frames"`. Every adjacency matrix
becomes one edge set, `connections_0 … connections_{K-1}`.

A batch is merged into one graph whose examples are separate components.
The `"frames"` features are mapped to initial hidden states. The rounds of
message passing then update `"frames"`: round i reads the edge set
`connections_<i % V>`, where V is `n_dilation_layers` with dilation on and
1 with it off. One model pools messages as an edge-weighted sum. Another
adds each block's input state to its output state.

This project models those pieces in Dafny. Tensors are sequences of exact
reals. Trainable layers are function parameters.

| file | module | what it models |
|---|---|---|
| `names.dfy` | `Names` | the edge-set names `f"connections_{i}"` and their injectivity |
| `graph_tensors.dfy` | `GraphTensors` | graph tensors (context, node sets, edge sets with per-component sizes), their invariants, errors |
| `graph_builder.dfy` | `GraphBuilder` | `mfccs_to_graph_tensors_for_dataset`: reshape, `tf.where(A > 0)` / `tf.gather_nd`, one edge set per matrix |
| `weighted_conv.dfy` | `WeightedConv` | `WeightedSumConvolution.call`: broadcast, weight, sum-pool, dense |
| `batch_merge.dfy` | `BatchMerge` | `merge_batch_to_components` as a fold of a disjoint union |
| `initial_state.dfy` | `InitialState` | the `set_initial_node_state` dispatch through `MapFeatures`, and the edge-state dispatch (see Findings) |
| `scheduler.dfy` | `Scheduler` | Python's `%`, the dilation schedule, the `GraphUpdate` of `"frames"` and the round loop |
| `residual.dfy` | `Residual` | `GCNResidualBlock.call` with skip type `'sum'` and the loop with its `i == 0` exemption |
| `pipeline.dfy` | `Pipeline` | build, merge, initialise, then run the rounds |

## Model

| member | source | states |
|---|---|---|
| Names.ConnectionsName | models/base_gnn.py:113 | the name is `connections_` followed by the decimal index |
| Names.ConnectionsNameInjective | models/base_gnn.py:113-115 | distinct indices give distinct edge-set names, so no matrix's edge set overwrites another's |
| Names.ParseNatToString | models/base_gnn.py:113 | reading the decimal digits of the name back gives the index |
| GraphBuilder.Reshape | models/base_gnn.py:83 | `tf.reshape` succeeds exactly when the buffer holds n·f values; the result is n×f and reads back row-major as the buffer; otherwise ShapeMismatch |
| GraphBuilder.PositiveEdgesMember | models/base_gnn.py:101-104 | an edge is extracted exactly when it is (i, j, A[i][j]) with A[i][j] > 0 |
| GraphBuilder.PositiveEdgesSorted | models/base_gnn.py:101 | extracted edges come in strict row-major order |
| GraphBuilder.ExtractionUnique | models/base_gnn.py:101-104 | any strictly row-major list holding exactly the positive entries is the extracted list |
| GraphBuilder.EdgeCount | models/base_gnn.py:101-117 | the edge count (the edge set's size) is the number of strictly positive entries |
| GraphBuilder.EdgeSetOfFacts | models/base_gnn.py:101-122 | sizes = [number of positive entries] (so their total is that count); sources, targets and weights aligned; each weight is A[source][target] > 0 |
| GraphBuilder.EdgeSetOf | models/base_gnn.py:115-122 | the edge set lists the extracted edges, both ends on `"frames"` |
| GraphBuilder.ViewNamesCard | models/base_gnn.py:99-115 | K matrices give K distinct edge-set names |
| GraphBuilder.EdgeSetsOfFacts | models/base_gnn.py:95-122 | the edge-set dictionary has exactly the keys `connections_0 … connections_{K-1}`, entry i built from matrix i |
| GraphBuilder.BuildGraphTensor | models/base_gnn.py:69-130 | the builder's loop over the matrices yields the graph of `GraphOf` |
| GraphBuilder.BuiltGraphFacts | models/base_gnn.py:83-130 | built iff the buffer has frames·coefficients values; only node set `"frames"` with `frames` nodes whose features read back as the buffer; edge set i extracted from matrix i |
| GraphBuilder.BuiltGraphWellFormed | models/base_gnn.py:86-130 | with frames×frames matrices every endpoint is a valid node and no edge leaves the single component |
| WeightedConv.SenderTag | models/base_gnn.py:1760 | the sender is the endpoint other than the receiver |
| WeightedConv.SenderIsOtherEnd | models/base_gnn.py:1760-1769 | the receiver and the sender are the two ends of every edge |
| WeightedConv.WeightedSumConvolution | models/base_gnn.py:1763-1786 | one output row per node of the receiving node set |
| WeightedConv.Pooled | models/base_gnn.py:1778-1783 | one pooled row of the state width per receiver |
| WeightedConv.PoolSumAppend | models/base_gnn.py:1778-1783 | the sum over two edge lists is the sum of the sums |
| WeightedConv.PoolSumPermutation | models/base_gnn.py:1778-1783 | the sum pool does not depend on the order of the edges |
| WeightedConv.ConvolutionOrderInvariant | models/base_gnn.py:1763-1786 | two edge sets with the same edges in any order give the same convolution |
| WeightedConv.IsolatedReceiverGetsZero | models/base_gnn.py:1778-1786 | a node that receives no edge pools the zero vector and outputs dense(0) |
| WeightedConv.SingleIncidentEdge | models/base_gnn.py:1765-1783 | a node with one incoming edge pools weight × sender state |
| WeightedConv.PoolSumOnlyEdge | models/base_gnn.py:1775-1783 | with one edge received at v, the pool at v is that edge's weighted message |
| WeightedConv.PositiveEdgesPoolTarget | models/base_gnn.py:1775-1783 | over the edge set built from a non-negative matrix, pooling to TARGET gives Σ_u A[u][v]·h[u][c] |
| WeightedConv.PositiveEdgesPoolSource | models/base_gnn.py:1775-1783 | over the edge set built from a non-negative matrix, pooling to SOURCE gives Σ_j A[v][j]·h[j][c] |
| WeightedConv.PooledIsMatrixProduct | models/base_gnn.py:1775-1783 | on a non-negative matrix A the pooled messages are Aᵀ·h (TARGET) and A·h (SOURCE) |
| BatchMerge.Empty | models/base_gnn.py:259-272 | the graph with no components has the given schema |
| BatchMerge.Merge | models/base_gnn.py:259-272 | merging a batch of one schema gives a graph of that schema |
| BatchMerge.AppendSchema | models/base_gnn.py:259-272 | the union of two graphs of one schema has that schema |
| BatchMerge.AppendNodeSets | models/base_gnn.py:262-267 | the union's node set holds a's nodes then b's: sizes and every feature concatenated, node count added |
| BatchMerge.AppendEdges | models/base_gnn.py:259-272 | a's edges unchanged, then b's renumbered by a's node counts on each side |
| BatchMerge.AppendWellFormed | models/base_gnn.py:259-272 | the union keeps the invariants; its context sizes are the concatenation |
| BatchMerge.AppendClosed | models/base_gnn.py:257-258 | no edge of the union joins two components when none did before |
| BatchMerge.MergeClosed | models/base_gnn.py:255-272 | the merged batch is well formed and has no edge between components |
| BatchMerge.MergeNodeTotal | models/base_gnn.py:262-267 | the merged node set holds the sum of the examples' nodes |
| BatchMerge.MergeUniformNodeTotal | models/base_gnn.py:267 | B examples of N nodes merge to B·N nodes (32 × 98 = 3136) |
| BatchMerge.MergeComponents | models/base_gnn.py:262-265 | single-component examples merge to one component per example, in batch order |
| BatchMerge.AppendEmpty | models/base_gnn.py:259-272 | the empty graph is a left unit of the union |
| BatchMerge.MergeSingle | models/base_gnn.py:259-272 | merging a batch of one example gives the example back |
| BatchMerge.AppendEmptyRight | models/base_gnn.py:259-272 | the empty graph is a right unit of the union |
| BatchMerge.AppendAssoc | models/base_gnn.py:259-272 | the union of graphs of one schema is associative: shifting twice is shifting by the summed node counts |
| BatchMerge.MergeConcat | models/base_gnn.py:259-272 | merging a batch in two parts and merging the two results gives the merge of the whole batch |
| InitialState.InitialNodeState | models/base_gnn.py:281-300 | accepts exactly `"frames"` with `"features"`; another name is UnknownNodeSet(name); one state row per node |
| InitialState.InitialStateIsNodeLocal | models/base_gnn.py:292-296 | a node's initial state depends only on its own feature row |
| InitialState.MapRowsAppend | models/base_gnn.py:292-296 | the row-wise dense layer commutes with stacking rows: applying it to stacked rows gives the stacked results |
| InitialState.InitStatesAppend | models/base_gnn.py:321-322 | initialising the union of two graphs of one schema is accepted when the first part is, and its `"frames"` state is the first part's initial state stacked on the second's |
| InitialState.InitStates | models/base_gnn.py:321-322 | succeeds iff every node set is `"frames"` with features; context, edge sets and sizes unchanged; `"frames"` features become `{hidden_state}` |
| InitialState.InitStatesWellFormed | models/base_gnn.py:321-322 | initialisation keeps the invariants |
| InitialState.BuiltGraphAccepted | models/base_gnn.py:281-300 | every built example passes the dispatch |
| InitialState.InitialEdgeStateAsWritten | models/base_gnn.py:548-559 | succeeds only for `connections_0` |
| InitialState.EdgeStatesAsWritten | models/base_gnn.py:571-574 | as written, the edge-state mapping fails whenever an edge set other than `connections_0` exists |
| InitialState.EdgeStatesAsWrittenRejectsViews | models/base_gnn.py:548-574 | every example built from two or more matrices is rejected |
| InitialState.EdgeStates | models/base_gnn.py:548-553 | corrected: only `connections_0` gets a learnt state; no other edge set gets one |
| InitialState.EdgeStatesOfBuiltGraph | models/base_gnn.py:548-553 | corrected: every built example is accepted; `connections_0`'s state has one row per positive entry of the first matrix, computed from that weight alone |
| Scheduler.Mod | models/base_gnn.py:445 | the remainder of a positive divisor lies in [0, b) |
| Scheduler.ModPeriodic | models/base_gnn.py:445 | the remainder repeats with period b and is the identity on [0, b) |
| Scheduler.FloorMod | models/base_gnn.py:445 | Python's `%`: in [0, b) for b > 0, in (b, 0] for b < 0 |
| Scheduler.Schedule | models/base_gnn.py:444-445 | one view index per round |
| Scheduler.UpdateFrames | models/base_gnn.py:446-453 | the update succeeds iff the view, `"frames"` and its hidden state exist; a missing view is UnknownEdgeSet(view) |
| Scheduler.UpdateFramesKeeps | models/base_gnn.py:446-453 | only the `"frames"` features change, to the single hidden state the layer computes from the view's edge set |
| Scheduler.RunErrorIsFinal | models/base_gnn.py:444-453 | after a failing round, later rounds do not change the result |
| Scheduler.MessagePassing | models/base_gnn.py:439-453 | the loop computes `Passing`, with ZeroDivision when V = 0 and rounds remain |
| Scheduler.ScheduleExample | models/base_gnn.py:211-214 | four rounds over two views use views 0, 1, 0, 1 |
| Scheduler.NoDilationUsesFirstView | models/base_gnn.py:439-441 | without dilation every round reads `connections_0` |
| Scheduler.ScheduleCycles | models/base_gnn.py:444-445 | with V > 0 views each index is in [0, V), repeats every V rounds and equals the round below V |
| Scheduler.NegativeViews | models/base_gnn.py:445 | a negative V puts every index in (V, 0]; V = -1 always gives 0; V < -1 makes round 1 read a name no builder produces |
| Scheduler.RunKeeps | models/base_gnn.py:446-453 | the rounds keep context, edge sets and other node sets; `"frames"` ends with only `hidden_state` |
| Scheduler.RunSucceeds | models/base_gnn.py:444-453 | the rounds succeed iff every scheduled view exists |
| Scheduler.RunFirstError | models/base_gnn.py:444-453 | a failure names the first missing scheduled view |
| Scheduler.PassingSucceeds | models/base_gnn.py:439-453 | on K views the loop succeeds iff no rounds, or V ≠ 0 and every i % V lies in [0, K) |
| Scheduler.PassingNeedsEnoughViews | models/base_gnn.py:439-453 | with V > 0 the loop succeeds iff no rounds or min(rounds, V) ≤ K |
| Scheduler.RunReadsOnlyScheduledViews | models/base_gnn.py:444-453 | the result depends only on `"frames"` and the scheduled edge sets |
| Scheduler.RunWellFormed | models/base_gnn.py:444-453 | a row-keeping layer keeps the invariants through the rounds |
| Scheduler.WeightedLayerKeepsRows | models/base_gnn.py:1802-1812 | the weighted model's round keeps one state row per node |
| Scheduler.ZeroMatrixGivesZeroMessages | models/base_gnn.py:1802-1812 | over an all-zero matrix, every node's message is the message layer applied to 0 |
| Residual.Add | models/base_gnn.py:1374 | element-wise sum of same-shape states |
| Residual.AddSub | models/base_gnn.py:1374 | subtracting the input from the sum gives the output back |
| Residual.ResidualSum | models/base_gnn.py:1355-1381 | without `'sum'` the output is returned; with it, success iff both states exist with the same shape; a missing `"frames"` is UnknownNodeSet, a missing `hidden_state` MissingFeature (input checked before output), different shapes ShapeMismatch |
| Residual.ResidualSumFacts | models/base_gnn.py:1364-1378 | context, edge sets, sizes and other `"frames"` features come from the output; `"frames"` is the only node set; state − input = output |
| Residual.ResidualBlock | models/base_gnn.py:1347-1357 | a missing `"connections"` fails with UnknownEdgeSet |
| Residual.ResidualMessagePassing | models/base_gnn.py:1384-1405 | the loop computes `ResidualRun` |
| Residual.ResidualErrorIsFinal | models/base_gnn.py:1384-1405 | after a failing round, later rounds do not change the result |
| Residual.FirstRoundHasNoSkip | models/base_gnn.py:1392-1401 | round 0 is the plain update, whatever the skip type |
| Residual.ResidualStep | models/base_gnn.py:1355-1405 | each round's state: the layer output in round 0 or without `'sum'`; otherwise state − previous state = layer output |
| Residual.ResidualRunSucceeds | models/base_gnn.py:1384-1405 | with a layer of fixed output width d (as `NextStateFromConcat(dense(next_state_dim))`) and an initial state of any width, the rounds succeed iff there are none or `"connections"` exists; edge sets and one row per node are kept; after round 0 the state has width d |
| Residual.ResidualFirstRoundWouldMismatch | models/base_gnn.py:1392-1405 | why round 0 is exempt: as a residual block it would fail with ShapeMismatch when the initial width differs from d, while the plain update succeeds |
| Residual.ConnectionsNotAView | models/base_gnn.py:1347-1351 | `"connections"` is not among `connections_0 … connections_{K-1}` |
| Residual.ResidualRejectsBuiltGraphs | models/base_gnn.py:1384-1401 | a graph with the built edge sets fails at round 0 with UnknownEdgeSet("connections") |
| Residual.ResidualSumWellFormed | models/base_gnn.py:1364-1378 | when all edge sets are `"frames"`→`"frames"`, the sum keeps the invariants |
| Pipeline.BuiltSchema | models/base_gnn.py:86-122 | the schema of examples built from K matrices |
| Pipeline.BuiltGraphSchema | models/base_gnn.py:86-125 | examples built from K matrices all have that schema, so they can be merged |
| Pipeline.InitBuiltSchema | models/base_gnn.py:281-322 | a graph of that schema is initialised; it has a hidden state and the K edge sets |
| Pipeline.BatchRuns | models/base_gnn.py:439-453 | a merged, initialised batch runs iff no rounds, or V ≠ 0 and every i % V lies in [0, K) |
| Pipeline.DilatedBatchAlwaysRuns | models/base_gnn.py:439-453 | with K = n_dilation_layers = 2, any number of rounds runs |
| Pipeline.TooFewViewsFail | models/base_gnn.py:439-453 | one matrix per example with n_dilation_layers = 2 fails once there are two rounds |
| Pipeline.ExampleStaysWellFormed | models/base_gnn.py:444-453 | an example built from square matrices is initialised, well formed, and stays well formed through any successful rounds |
| Pipeline.BatchStaysWellFormed | models/base_gnn.py:262-272 | a batch of examples built from square matrices: the merged graph is well formed with no edge between components, and stays so through initialisation and any successful rounds |

## Left out

- Trainable layers are parameters. This covers Dense, Dropout, LayerNormalization, `NextStateFromConcat`'s dense block, `GCNConv` and `GATv2Conv`. Their numerics, activations, regularisers and weight sharing are not modelled.
- The per-round convolutions of the GCN, GAT and context-node models (`GCNConv` with in-degree normalisation, `GATv2Conv`) enter the schedule only as the `Layer` parameter. The per-round context updates are not modelled. These are the GATv2 attention pooling into the context in `GAT_GCN_model` (models/base_gnn.py:859-865) and in `base_GATv2_model` (models/base_gnn.py:1087-1093), and the mean pooling in `base_gnn_with_context_node_model` (models/base_gnn.py:1570-1576). For those models only the node-set update of each round is modelled.
- `base_gnn_model_learning_edge_weights`: its per-round `EdgeSetUpdate` of `connections_0` (models/base_gnn.py:617-623) is not modelled. `Scheduler.Run` keeps every edge set, and so it does not recompute that edge set's hidden state or fail when `connections_0` is missing.
- Final pooling to the context, the classifier head, model assembly, training and attention extraction are out of scope. Keras model construction is left out too.
- The legacy single-edge-set builders (`mfccs_to_graph_tensors_for_dataset_OLD`, `mfccs_to_graph_tensors`) are not modelled. The residual model reads their edge-set name `"connections"` (see `Residual.ResidualRejectsBuiltGraphs`).
- The frame and coefficient counts are parameters. The source hard-codes 98×39.
- The source does not check that an adjacency matrix is square, so neither does the model. `GraphBuilder.BuiltGraphWellFormed` assumes square matrices.
- The label is passed through untouched and is not modelled.
- Floating point: values are exact reals. Rounding, NaN and overflow are not modelled.
- Broadcasting of `input_state + output_state`: states of different shapes give ShapeMismatch rather than a broadcast. With a fixed-width layer this never happens after round 0 (`Residual.ResidualRunSucceeds`).
- `InitialState.InitStates`: when several node sets other than `"frames"` exist, which one the error names is left open.
- `MapFeatures` is modelled as leaving the context and the edge sets unchanged. No context or edge function is given there.
- `Scheduler.UpdateFrames`: the order of the errors (edge set, then `"frames"`, then `hidden_state`) is a choice. The library's own order is not part of this model.
- tfgnn receiver tag CONTEXT in `WeightedSumConvolution`: the model requires a node receiver, as every call in the source passes one.
- Batch merge is modelled on graphs of one schema. The batch's ragged tensors and `graph.spec.rank` are not modelled.

## Findings

| source | as written | input that shows it | evidently intended | confidence | as-written member | corrected member |
|---|---|---|---|---|---|---|
| models/base_gnn.py:548-559 | `set_initial_edge_state` raises for every edge set except `connections_0`. It is passed to `MapFeatures` for all edge sets (571-574). | any example built from two adjacency matrices (edge sets `connections_0`, `connections_1`) | only `connections_0` gets a learnt state. Other edge sets keep their features, as `map_edge_features` does at 517-524 and as the docstring says. Even then, the convolution defined at 594-596 reads the edge `hidden_state` of the view it runs over (627), so a dilated round over `connections_1` still finds no edge state. That second defect is not part of this model. | medium, not executed | InitialState.EdgeStatesAsWrittenRejectsViews | InitialState.EdgeStatesOfBuiltGraph |
