/** The stages of a model put together: examples from the dataset
    builder, merged into one graph when batched, given their initial
    states, then passed through the rounds of the dilation schedule. */
module Pipeline {
  import opened Names
  import opened GraphTensors
  import opened GraphBuilder
  import opened BatchMerge
  import opened InitialState
  import opened Scheduler

  /** The schema of every example built from K adjacency matrices: node
      set "frames" with feature "features", edge sets `connections_0 …
      connections_{K-1}` from "frames" to "frames", no context feature. */
  function BuiltSchema(k: nat): (s: Schema)
    ensures s.nodeFeatures.Keys == {Frames} && s.edgeEnds.Keys == ViewNames(k)
  {
    Schema(map[Frames := {FeaturesKey}], map n | n in ViewNames(k) :: (Frames, Frames), {})
  }

  /** Examples built from the same number of matrices share one schema,
      so any batch of them can be merged. */
  lemma BuiltGraphSchema(mfcc: seq<real>, frames: nat, coefficients: nat, ms: seq<Matrix>)
    requires GraphOf(mfcc, frames, coefficients, ms).Ok?
    ensures SchemaOf(GraphOf(mfcc, frames, coefficients, ms).value) == BuiltSchema(|ms|)
  {
    var g := GraphOf(mfcc, frames, coefficients, ms).value;
    assert g.nodeSets.Keys == {Frames} && g.nodeSets[Frames].features.Keys == {FeaturesKey};
    assert g.context.features.Keys == {};
    BuiltEdgeEnds(ms);
    assert SchemaOf(g).nodeFeatures == BuiltSchema(|ms|).nodeFeatures;
    assert SchemaOf(g).edgeEnds == BuiltSchema(|ms|).edgeEnds;
  }

  /** Every built edge set goes from "frames" to "frames". */
  lemma {:induction false} BuiltEdgeEnds(ms: seq<Matrix>)
    ensures EdgeSetsOf(ms).Keys == ViewNames(|ms|)
    ensures forall n :: n in EdgeSetsOf(ms) ==>
              EdgeSetsOf(ms)[n].adjacency.sourceSet == Frames && EdgeSetsOf(ms)[n].adjacency.targetSet == Frames
  {
    EdgeSetsOfKeys(ms);
    if |ms| > 0 {
      BuiltEdgeEnds(ms[..|ms| - 1]);
    }
  }

  /** A graph of the built schema is accepted by the initial-state
      dispatch, and afterwards has a "frames" hidden state and the edge
      sets `connections_0 … connections_{K-1}`. */
  lemma InitBuiltSchema(g: GraphTensor, k: nat, dense: seq<real> -> seq<real>)
    requires SchemaOf(g) == BuiltSchema(k)
    ensures InitStates(g, dense).Ok?
    ensures HasState(InitStates(g, dense).value)
    ensures InitStates(g, dense).value.edgeSets.Keys == ViewNames(k)
  {
    assert g.nodeSets.Keys == SchemaOf(g).nodeFeatures.Keys;
    assert g.edgeSets.Keys == SchemaOf(g).edgeEnds.Keys;
    assert g.nodeSets[Frames].features.Keys == SchemaOf(g).nodeFeatures[Frames];
  }

  /** One batch of examples, each built from K matrices: merging and
      initialising always succeed, and the rounds then succeed exactly
      when there are none or the view count is non-zero and every round's
      view index lies in [0, K). */
  lemma BatchRuns(gs: seq<GraphTensor>, k: nat, dense: seq<real> -> seq<real>,
                  layers: int, dilation: bool, nDilationLayers: int, layer: Layer)
    requires SameSchema(BuiltSchema(k), gs)
    ensures InitStates(Merge(BuiltSchema(k), gs), dense).Ok?
    ensures var g := InitStates(Merge(BuiltSchema(k), gs), dense).value;
            var v := DilationViews(dilation, nDilationLayers);
            Passing(g, layers, dilation, nDilationLayers, layer).Ok? <==>
            Rounds(layers) == 0 ||
            (v != 0 && forall i :: 0 <= i < Rounds(layers) ==> 0 <= FloorMod(i, v) < k)
  {
    var m := Merge(BuiltSchema(k), gs);
    InitBuiltSchema(m, k, dense);
    PassingSucceeds(InitStates(m, dense).value, k, layers, dilation, nDilationLayers, layer);
  }

  /** The default configuration with dilation on: K = n_dilation_layers =
      2 views, and any number of rounds runs on a merged batch. */
  lemma DilatedBatchAlwaysRuns(gs: seq<GraphTensor>, dense: seq<real> -> seq<real>, layers: int, layer: Layer)
    requires SameSchema(BuiltSchema(2), gs)
    ensures InitStates(Merge(BuiltSchema(2), gs), dense).Ok?
    ensures Passing(InitStates(Merge(BuiltSchema(2), gs), dense).value, layers, true, 2, layer).Ok?
  {
    var m := Merge(BuiltSchema(2), gs);
    InitBuiltSchema(m, 2, dense);
    PassingNeedsEnoughViews(InitStates(m, dense).value, 2, layers, true, 2, layer);
  }

  /** Dilation on with more views than matrices: the first round whose
      view has no matrix fails, so a batch built from one matrix per
      example with n_dilation_layers = 2 fails as soon as there are two
      rounds. */
  lemma TooFewViewsFail(gs: seq<GraphTensor>, dense: seq<real> -> seq<real>, layers: int, layer: Layer)
    requires SameSchema(BuiltSchema(1), gs) && layers >= 2
    ensures !Passing(InitStates(Merge(BuiltSchema(1), gs), dense).value, layers, true, 2, layer).Ok?
  {
    var m := Merge(BuiltSchema(1), gs);
    InitBuiltSchema(m, 1, dense);
    PassingNeedsEnoughViews(InitStates(m, dense).value, 1, layers, true, 2, layer);
  }

  /** A single example built from K square matrices is accepted by the
      initial-state dispatch and keeps the graph-tensor invariants through
      initialisation and any successful rounds of a layer that keeps one
      row per node. */
  lemma ExampleStaysWellFormed(mfcc: seq<real>, frames: nat, coefficients: nat, ms: seq<Matrix>,
                               dense: seq<real> -> seq<real>, s: seq<int>, layer: Layer)
    requires GraphOf(mfcc, frames, coefficients, ms).Ok?
    requires forall i :: 0 <= i < |ms| ==> IsShape(ms[i], frames, frames)
    requires KeepsRows(layer)
    ensures InitStates(GraphOf(mfcc, frames, coefficients, ms).value, dense).Ok?
    ensures var g := InitStates(GraphOf(mfcc, frames, coefficients, ms).value, dense).value;
            WellFormed(g) &&
            (Run(g, s, layer).Ok? ==> WellFormed(Run(g, s, layer).value) && ComponentsClosed(Run(g, s, layer).value))
  {
    var g0 := GraphOf(mfcc, frames, coefficients, ms).value;
    BuiltGraphFacts(mfcc, frames, coefficients, ms);
    BuiltGraphWellFormed(mfcc, frames, coefficients, ms);
    BuiltGraphAccepted(mfcc, frames, coefficients, ms);
    InitStatesWellFormed(g0, dense);
    if Run(InitStates(g0, dense).value, s, layer).Ok? {
      RunWellFormed(InitStates(g0, dense).value, s, layer);
    }
  }

  /** A batch of examples, each built from K square matrices: merging
      keeps the graph-tensor invariants, and so do initialisation and any
      successful rounds of a layer that keeps one row per node. */
  lemma BatchStaysWellFormed(gs: seq<GraphTensor>, mfccs: seq<seq<real>>, mss: seq<seq<Matrix>>,
                             frames: nat, coefficients: nat, k: nat,
                             dense: seq<real> -> seq<real>, s: seq<int>, layer: Layer)
    requires |mfccs| == |gs| && |mss| == |gs|
    requires forall i :: 0 <= i < |gs| ==> |mss[i]| == k && GraphOf(mfccs[i], frames, coefficients, mss[i]) == Ok(gs[i])
    requires forall i, j :: 0 <= i < |gs| && 0 <= j < k ==> IsShape(mss[i][j], frames, frames)
    requires KeepsRows(layer)
    ensures SameSchema(BuiltSchema(k), gs)
    ensures WellFormed(Merge(BuiltSchema(k), gs)) && ComponentsClosed(Merge(BuiltSchema(k), gs))
    ensures InitStates(Merge(BuiltSchema(k), gs), dense).Ok?
    ensures var g := InitStates(Merge(BuiltSchema(k), gs), dense).value;
            WellFormed(g) && ComponentsClosed(g) &&
            (Run(g, s, layer).Ok? ==> WellFormed(Run(g, s, layer).value) && ComponentsClosed(Run(g, s, layer).value))
  {
    forall i | 0 <= i < |gs|
      ensures SchemaOf(gs[i]) == BuiltSchema(k)
      ensures WellFormed(gs[i]) && ComponentsClosed(gs[i])
    {
      BuiltGraphSchema(mfccs[i], frames, coefficients, mss[i]);
      BuiltGraphWellFormed(mfccs[i], frames, coefficients, mss[i]);
    }
    var sch := BuiltSchema(k);
    assert EndsDeclared(sch);
    MergeClosed(sch, gs);
    var m := Merge(sch, gs);
    assert m.nodeSets.Keys == SchemaOf(m).nodeFeatures.Keys;
    assert m.nodeSets[Frames].features.Keys == SchemaOf(m).nodeFeatures[Frames];
    assert InitAccepts(m);
    InitStatesWellFormed(m, dense);
    var g := InitStates(m, dense).value;
    if Run(g, s, layer).Ok? {
      RunWellFormed(g, s, layer);
    }
  }
}
