/** The initial hidden states: `MapFeatures(node_sets_fn =
    set_initial_node_state)`.  The node-set dispatch accepts exactly the
    name "frames" and maps its "features" through a dense layer (a
    parameter here, applied to each node's row on its own); any other name
    is an error.  Context and edge sets pass through unchanged.

    The edge-state dispatch of the edge-weight-learning model is modelled
    twice: as written (every edge set other than `connections_0` is an
    error) and as its docstring intends (only `connections_0` gets a
    learnt state, the others keep their features). */
module InitialState {
  import opened Names
  import opened GraphTensors
  import opened GraphBuilder
  import opened BatchMerge

  /** A dense layer applied to every row: one output row per node, each
      computed from that node's row only. */
  function MapRows(m: Matrix, dense: seq<real> -> seq<real>): (r: Matrix)
    ensures |r| == |m|
  {
    seq(|m|, v requires 0 <= v < |m| => dense(m[v]))
  }

  /** `set_initial_node_state(node_set, node_set_name)`. */
  function InitialNodeState(ns: NodeSet, name: string, dense: seq<real> -> seq<real>): (r: Result<Matrix>)
    ensures r.Ok? <==> name == Frames && FeaturesKey in ns.features
    ensures name != Frames ==> r == Err(UnknownNodeSet(name))
    ensures name == Frames && FeaturesKey !in ns.features ==> r == Err(MissingFeature(FeaturesKey))
    ensures r.Ok? ==> |r.value| == |ns.features[FeaturesKey]|
  {
    if name != Frames then Err(UnknownNodeSet(name))
    else if FeaturesKey !in ns.features then Err(MissingFeature(FeaturesKey))
    else Ok(MapRows(ns.features[FeaturesKey], dense))
  }

  /** No cross-node interaction: a node's initial state depends only on
      that node's own feature row. */
  lemma InitialStateIsNodeLocal(x: NodeSet, y: NodeSet, dense: seq<real> -> seq<real>, v: nat)
    requires FeaturesKey in x.features && FeaturesKey in y.features
    requires v < |x.features[FeaturesKey]| && v < |y.features[FeaturesKey]|
    requires x.features[FeaturesKey][v] == y.features[FeaturesKey][v]
    ensures InitialNodeState(x, Frames, dense).value[v] == InitialNodeState(y, Frames, dense).value[v]
  {
  }

  /** Applying the layer row by row commutes with stacking rows: the
      states of a merged batch are the stacked states of its examples. */
  lemma MapRowsAppend(x: Matrix, y: Matrix, dense: seq<real> -> seq<real>)
    ensures MapRows(x + y, dense) == MapRows(x, dense) + MapRows(y, dense)
  {
    var l, r := MapRows(x + y, dense), MapRows(x, dense) + MapRows(y, dense);
    forall v | 0 <= v < |l| ensures l[v] == r[v] {
      if v >= |x| {
        assert (x + y)[v] == y[v - |x|];
      }
    }
  }

  /** Every node-set name is "frames" and "frames" has its features. */
  predicate InitAccepts(g: GraphTensor) {
    && (forall n :: n in g.nodeSets ==> n == Frames)
    && (Frames in g.nodeSets ==> FeaturesKey in g.nodeSets[Frames].features)
  }

  /** `MapFeatures(node_sets_fn=set_initial_node_state)` on a whole graph:
      the "frames" features are replaced by the single feature
      "hidden_state"; a node set with another name is rejected (which one
      is reported, when there are several, is left open). */
  ghost function InitStates(g: GraphTensor, dense: seq<real> -> seq<real>): (r: Result<GraphTensor>)
    ensures r.Ok? <==> InitAccepts(g)
    ensures r.Err? ==>
              || (r.error.UnknownNodeSet? && r.error.name in g.nodeSets && r.error.name != Frames)
              || (r.error == MissingFeature(FeaturesKey) && Frames in g.nodeSets)
    ensures r.Ok? ==>
              && r.value.context == g.context
              && r.value.edgeSets == g.edgeSets
              && r.value.nodeSets.Keys == g.nodeSets.Keys
              && (Frames in g.nodeSets ==>
                    var ns := r.value.nodeSets[Frames];
                    && ns.sizes == g.nodeSets[Frames].sizes
                    && ns.features.Keys == {HiddenState}
                    && ns.features[HiddenState] == InitialNodeState(g.nodeSets[Frames], Frames, dense).value)
  {
    if exists n :: n in g.nodeSets && n != Frames then
      var n :| n in g.nodeSets && n != Frames;
      Err(UnknownNodeSet(n))
    else if Frames in g.nodeSets && FeaturesKey !in g.nodeSets[Frames].features then
      Err(MissingFeature(FeaturesKey))
    else
      Ok(g.(nodeSets := map n | n in g.nodeSets ::
        NodeSet(g.nodeSets[n].sizes, map[HiddenState := MapRows(g.nodeSets[n].features[FeaturesKey], dense)])))
  }

  /** Initialisation keeps the graph-tensor invariants: one state row per
      node, and edges unchanged. */
  lemma InitStatesWellFormed(g: GraphTensor, dense: seq<real> -> seq<real>)
    requires WellFormed(g) && InitAccepts(g)
    ensures WellFormed(InitStates(g, dense).value)
    ensures ComponentsClosed(g) ==> ComponentsClosed(InitStates(g, dense).value)
  {
    var r := InitStates(g, dense).value;
    if Frames in g.nodeSets {
      assert NodeSetShaped(g.nodeSets[Frames]);
      assert NodeSetShaped(r.nodeSets[Frames]);
    }
    assert forall n :: n in r.nodeSets ==> r.nodeSets[n].sizes == g.nodeSets[n].sizes;
  }

  /** Initialising a merged pair is initialising each part: the union is
      accepted when its first part is, and its "frames" state is the
      first part's state stacked on the second's. */
  lemma InitStatesAppend(a: GraphTensor, b: GraphTensor, dense: seq<real> -> seq<real>)
    requires SchemaOf(a) == SchemaOf(b) && InitAccepts(a) && Frames in a.nodeSets
    ensures InitAccepts(b) && InitAccepts(Append(a, b))
    ensures Frames in b.nodeSets && Frames in Append(a, b).nodeSets
    ensures InitStates(Append(a, b), dense).value.nodeSets[Frames].features[HiddenState] ==
            InitStates(a, dense).value.nodeSets[Frames].features[HiddenState] +
            InitStates(b, dense).value.nodeSets[Frames].features[HiddenState]
  {
    SchemaKeys(a, b);
    AppendNodeSets(a, b, Frames);
    var m := Append(a, b);
    assert m.nodeSets.Keys == a.nodeSets.Keys;
    MapRowsAppend(a.nodeSets[Frames].features[FeaturesKey], b.nodeSets[Frames].features[FeaturesKey], dense);
  }

  /** A freshly built example is accepted: its only node set is "frames"
      with "features". */
  lemma BuiltGraphAccepted(mfcc: seq<real>, frames: nat, coefficients: nat, ms: seq<Matrix>)
    requires GraphOf(mfcc, frames, coefficients, ms).Ok?
    ensures InitAccepts(GraphOf(mfcc, frames, coefficients, ms).value)
  {
    BuiltGraphFacts(mfcc, frames, coefficients, ms);
  }

  /* ------------------ edge-state dispatch (finding) ------------------ */

  /** The scalar weights of an edge set as a one-column matrix
      (`expand_dims(weights, -1)`). */
  function WeightColumn(es: EdgeSet): (m: Matrix)
    ensures IsShape(m, |es.weights|, 1)
  {
    seq(|es.weights|, k requires 0 <= k < |es.weights| => [es.weights[k]])
  }

  /** `set_initial_edge_state` as written: an error for every edge set
      other than `connections_0`. */
  function InitialEdgeStateAsWritten(es: EdgeSet, name: string, dense: seq<real> -> seq<real>): (r: Result<Matrix>)
    ensures r.Ok? <==> name == ConnectionsName(0)
  {
    if name == ConnectionsName(0) then Ok(MapRows(WeightColumn(es), dense))
    else Err(UnknownNodeSet(name))
  }

  /** The edge states `MapFeatures` computes as written: it fails as soon
      as the graph has an edge set other than `connections_0`. */
  ghost function EdgeStatesAsWritten(g: GraphTensor, dense: seq<real> -> seq<real>): (r: Result<map<string, Matrix>>)
    ensures r.Ok? <==> forall n :: n in g.edgeSets ==> n == ConnectionsName(0)
  {
    if exists n :: n in g.edgeSets && n != ConnectionsName(0) then
      var n :| n in g.edgeSets && n != ConnectionsName(0);
      Err(UnknownNodeSet(n))
    else
      Ok(map n | n in g.edgeSets :: MapRows(WeightColumn(g.edgeSets[n]), dense))
  }

  /** Every example built from two or more adjacency matrices is rejected
      by the as-written edge-state dispatch, dilated or not. */
  lemma EdgeStatesAsWrittenRejectsViews(mfcc: seq<real>, frames: nat, coefficients: nat,
                                        ms: seq<Matrix>, dense: seq<real> -> seq<real>)
    requires GraphOf(mfcc, frames, coefficients, ms).Ok?
    requires |ms| >= 2
    ensures EdgeStatesAsWritten(GraphOf(mfcc, frames, coefficients, ms).value, dense).Err?
  {
    var g := GraphOf(mfcc, frames, coefficients, ms).value;
    BuiltGraphFacts(mfcc, frames, coefficients, ms);
    assert ConnectionsName(1) in g.edgeSets;
    if ConnectionsName(1) == ConnectionsName(0) {
      ConnectionsNameInjective(1, 0);
    }
  }

  /** The dispatch as intended: the map of learnt edge states, in which
      `connections_0` gets a state from its weights and no other edge set
      gets one. */
  function EdgeStates(g: GraphTensor, dense: seq<real> -> seq<real>): (r: map<string, Matrix>)
    ensures r.Keys == g.edgeSets.Keys * {ConnectionsName(0)}
  {
    map n | n in g.edgeSets && n == ConnectionsName(0) :: MapRows(WeightColumn(g.edgeSets[n]), dense)
  }

  /** The intended dispatch accepts every built example, and the state of
      `connections_0` has one row per positive entry of the first matrix,
      computed from that entry's value alone. */
  lemma EdgeStatesOfBuiltGraph(mfcc: seq<real>, frames: nat, coefficients: nat,
                               ms: seq<Matrix>, dense: seq<real> -> seq<real>)
    requires GraphOf(mfcc, frames, coefficients, ms).Ok?
    requires |ms| >= 1
    ensures var g := GraphOf(mfcc, frames, coefficients, ms).value;
            var st := EdgeStates(g, dense);
            && st.Keys == {ConnectionsName(0)}
            && |st[ConnectionsName(0)]| == |PositiveIndexSet(ms[0])|
            && forall k :: 0 <= k < |st[ConnectionsName(0)]| ==>
                 k < |PositiveEdges(ms[0])| &&
                 st[ConnectionsName(0)][k] == dense([PositiveEdges(ms[0])[k].weight])
  {
    BuiltGraphFacts(mfcc, frames, coefficients, ms);
    EdgeSetOfFacts(ms[0]);
    var g := GraphOf(mfcc, frames, coefficients, ms).value;
    assert ConnectionsName(0) in g.edgeSets;
  }
}
