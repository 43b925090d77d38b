/** The residual variant of the GCN model: every round after the first
    is a `GCNResidualBlock`, which updates "frames" over the edge set
    "connections" and, when the skip type is "sum", adds the block's input
    hidden state to its output hidden state element-wise.  The first
    round is a plain update, with no skip. */
module Residual {
  import opened Names
  import opened GraphTensors
  import opened GraphBuilder
  import opened Scheduler

  /** The single edge set the residual blocks read. */
  const Connections: string := "connections"

  /** The skip type that turns the residual sum on. */
  const SumSkip: string := "sum"

  /** Two matrices of the same shape. */
  predicate SameShape(x: Matrix, y: Matrix) {
    |x| == |y| && forall v :: 0 <= v < |x| ==> |x[v]| == |y[v]|
  }

  /** Element-wise sum of two matrices of the same shape. */
  function Add(x: Matrix, y: Matrix): (r: Matrix)
    requires SameShape(x, y)
    ensures SameShape(r, x)
    ensures forall v, j :: 0 <= v < |x| && 0 <= j < |x[v]| ==> r[v][j] == x[v][j] + y[v][j]
  {
    seq(|x|, v requires 0 <= v < |x| => seq(|x[v]|, j requires 0 <= j < |x[v]| => x[v][j] + y[v][j]))
  }

  /** Element-wise difference, the inverse of `Add`. */
  function Sub(x: Matrix, y: Matrix): (r: Matrix)
    requires SameShape(x, y)
    ensures SameShape(r, x)
    ensures forall v, j :: 0 <= v < |x| && 0 <= j < |x[v]| ==> r[v][j] == x[v][j] - y[v][j]
  {
    seq(|x|, v requires 0 <= v < |x| => seq(|x[v]|, j requires 0 <= j < |x[v]| => x[v][j] - y[v][j]))
  }

  /** Subtracting the input from the sum gives back the output. */
  lemma AddSub(x: Matrix, y: Matrix)
    requires SameShape(x, y)
    ensures Sub(Add(x, y), x) == y
  {
    var l := Sub(Add(x, y), x);
    forall v | 0 <= v < |y| ensures l[v] == y[v] {
      assert |l[v]| == |y[v]|;
    }
  }

  /** The "frames" hidden state of a graph that has one. */
  function State(g: GraphTensor): Matrix
    requires HasState(g)
  {
    g.nodeSets[Frames].features[HiddenState]
  }

  /** The residual step of `GCNResidualBlock.call`: with skip type "sum"
      the result has the output's context, edge sets and "frames" sizes,
      "frames" is its only node set, and its hidden state is input plus
      output.  The input state is read first, then the output state; a
      missing one, or states of different shapes, are errors.  Any other
      skip type returns the output unchanged. */
  function ResidualSum(inputs: GraphTensor, outputs: GraphTensor, skipType: string): (r: Result<GraphTensor>)
    ensures skipType != SumSkip ==> r == Ok(outputs)
    ensures skipType == SumSkip ==>
              (r.Ok? <==> HasState(inputs) && HasState(outputs) && SameShape(State(inputs), State(outputs)))
    ensures skipType == SumSkip && Frames !in inputs.nodeSets ==> r == Err(UnknownNodeSet(Frames))
    ensures skipType == SumSkip && Frames in inputs.nodeSets && HiddenState !in inputs.nodeSets[Frames].features ==>
              r == Err(MissingFeature(HiddenState))
    ensures skipType == SumSkip && HasState(inputs) && Frames !in outputs.nodeSets ==> r == Err(UnknownNodeSet(Frames))
    ensures skipType == SumSkip && HasState(inputs) && Frames in outputs.nodeSets &&
              HiddenState !in outputs.nodeSets[Frames].features ==>
              r == Err(MissingFeature(HiddenState))
    ensures skipType == SumSkip && HasState(inputs) && HasState(outputs) && !SameShape(State(inputs), State(outputs)) ==>
              r == Err(ShapeMismatch)
  {
    if skipType != SumSkip then Ok(outputs)
    else if Frames !in inputs.nodeSets then Err(UnknownNodeSet(Frames))
    else if HiddenState !in inputs.nodeSets[Frames].features then Err(MissingFeature(HiddenState))
    else if Frames !in outputs.nodeSets then Err(UnknownNodeSet(Frames))
    else if HiddenState !in outputs.nodeSets[Frames].features then Err(MissingFeature(HiddenState))
    else
      var x, y := State(inputs), State(outputs);
      if !SameShape(x, y) then Err(ShapeMismatch)
      else
        var out := outputs.nodeSets[Frames];
        Ok(GraphTensor(outputs.context,
                       map[Frames := NodeSet(out.sizes, out.features[HiddenState := Add(x, y)])],
                       outputs.edgeSets))
  }

  /** What the sum keeps and what it changes: the output's context, edge
      sets and "frames" sizes and other features; a hidden state from
      which subtracting the input gives back the output. */
  lemma ResidualSumFacts(inputs: GraphTensor, outputs: GraphTensor)
    requires ResidualSum(inputs, outputs, SumSkip).Ok?
    ensures var r := ResidualSum(inputs, outputs, SumSkip).value;
            && r.context == outputs.context
            && r.edgeSets == outputs.edgeSets
            && r.nodeSets.Keys == {Frames}
            && r.nodeSets[Frames].sizes == outputs.nodeSets[Frames].sizes
            && r.nodeSets[Frames].features.Keys == outputs.nodeSets[Frames].features.Keys
            && (forall f :: f in outputs.nodeSets[Frames].features && f != HiddenState ==>
                  r.nodeSets[Frames].features[f] == outputs.nodeSets[Frames].features[f])
            && HasState(r) && SameShape(State(r), State(inputs))
            && Sub(State(r), State(inputs)) == State(outputs)
  {
    AddSub(State(inputs), State(outputs));
  }

  /** One `GCNResidualBlock`: the update of "frames" over "connections",
      then the residual step on the block's input and output. */
  function ResidualBlock(g: GraphTensor, round: nat, skipType: string, layer: Layer): (r: Result<GraphTensor>)
    ensures Connections !in g.edgeSets ==> r == Err(UnknownEdgeSet(Connections))
  {
    match UpdateFrames(g, round, Connections, layer)
    case Err(e) => Err(e)
    case Ok(outputs) => ResidualSum(g, outputs, skipType)
  }

  /** Round i of the residual model: round 0 is the plain update (the
      `i == 0` exemption), later rounds are residual blocks. */
  function ResidualRound(h: GraphTensor, i: nat, skipType: string, layer: Layer): Result<GraphTensor> {
    if i == 0 then UpdateFrames(h, 0, Connections, layer) else ResidualBlock(h, i, skipType, layer)
  }

  /** The first n rounds of the residual model. */
  function ResidualRun(g: GraphTensor, n: nat, skipType: string, layer: Layer): Result<GraphTensor> {
    if n == 0 then Ok(g)
    else
      match ResidualRun(g, n - 1, skipType, layer)
      case Err(e) => Err(e)
      case Ok(h) => ResidualRound(h, n - 1, skipType, layer)
  }

  /** The loop `for i in range(n_message_passing_layers)` with its
      `i == 0` exemption. */
  method ResidualMessagePassing(g: GraphTensor, layers: int, skipType: string, layer: Layer)
    returns (r: Result<GraphTensor>)
    ensures r == ResidualRun(g, Rounds(layers), skipType, layer)
  {
    var graph := g;
    var i := 0;
    while i < layers
      invariant 0 <= i <= Rounds(layers)
      invariant ResidualRun(g, i, skipType, layer) == Ok(graph)
    {
      var next := ResidualRound(graph, i, skipType, layer);
      if next.Err? {
        ResidualErrorIsFinal(g, i + 1, Rounds(layers), skipType, layer);
        return next;
      }
      graph := next.value;
      i := i + 1;
    }
    assert i == Rounds(layers);
    r := Ok(graph);
  }

  /** Once a round fails, later rounds do not run. */
  lemma {:induction false} ResidualErrorIsFinal(g: GraphTensor, m: nat, n: nat, skipType: string, layer: Layer)
    requires m <= n && ResidualRun(g, m, skipType, layer).Err?
    ensures ResidualRun(g, n, skipType, layer) == ResidualRun(g, m, skipType, layer)
    decreases n
  {
    if m < n {
      ResidualErrorIsFinal(g, m, n - 1, skipType, layer);
    }
  }

  /** The round-0 exemption: a single round is the plain update whatever
      the skip type, so the first round never adds its input state. */
  lemma FirstRoundHasNoSkip(g: GraphTensor, skipType: string, layer: Layer)
    ensures ResidualRun(g, 1, skipType, layer) == ResidualRun(g, 1, "", layer)
    ensures ResidualRun(g, 1, skipType, layer) == UpdateFrames(g, 0, Connections, layer)
  {
  }

  /** Each round's hidden state in terms of the previous one: the layer's
      output in round 0 or without the "sum" skip; from round 1 on with
      the skip, a state from which subtracting the previous state gives
      the layer's output. */
  lemma ResidualStep(g: GraphTensor, n: nat, skipType: string, layer: Layer)
    requires n >= 1 && ResidualRun(g, n, skipType, layer).Ok?
    ensures ResidualRun(g, n - 1, skipType, layer).Ok?
    ensures var prev := ResidualRun(g, n - 1, skipType, layer).value;
            var cur := ResidualRun(g, n, skipType, layer).value;
            && HasState(prev) && Connections in prev.edgeSets && HasState(cur)
            && var out := layer(n - 1, prev.edgeSets[Connections], State(prev));
               && cur.edgeSets == prev.edgeSets
               && (n == 1 || skipType != SumSkip ==> State(cur) == out)
               && (n >= 2 && skipType == SumSkip ==>
                     SameShape(State(prev), out) && Sub(State(cur), State(prev)) == out)
  {
    var prev := ResidualRun(g, n - 1, skipType, layer).value;
    var u := UpdateFrames(prev, n - 1, Connections, layer);
    assert u.Ok?;
    UpdateFramesKeeps(prev, n - 1, Connections, layer);
    if n >= 2 && skipType == SumSkip {
      ResidualSumFacts(prev, u.value);
    }
  }

  /** A layer whose output always has `d` columns, one row per node, as
      `NextStateFromConcat(dense(next_state_dim))` does with d =
      next_state_dim, whatever the width of its input. */
  ghost predicate FixedWidth(layer: Layer, d: nat) {
    forall r: nat, es: EdgeSet, h: Matrix :: IsShape(layer(r, es, h), |h|, d)
  }

  /** With a fixed-width layer and a "frames" hidden state of any width,
      the residual rounds succeed exactly when there are none or the graph
      has the edge set "connections"; otherwise the first round reports it
      missing.  The edge sets are never changed, there stays one state row
      per node, and after the first round the state has the layer's
      width. */
  lemma {:induction false} ResidualRunSucceeds(g: GraphTensor, n: nat, skipType: string, layer: Layer, d: nat)
    requires HasState(g) && FixedWidth(layer, d)
    ensures ResidualRun(g, n, skipType, layer).Ok? <==> n == 0 || Connections in g.edgeSets
    ensures n > 0 && Connections !in g.edgeSets ==> ResidualRun(g, n, skipType, layer) == Err(UnknownEdgeSet(Connections))
    ensures ResidualRun(g, n, skipType, layer).Ok? ==>
              var r := ResidualRun(g, n, skipType, layer).value;
              && r.edgeSets == g.edgeSets && HasState(r) && |State(r)| == |State(g)|
              && (n >= 1 ==> IsShape(State(r), |State(g)|, d))
  {
    if n > 0 {
      ResidualRunSucceeds(g, n - 1, skipType, layer, d);
      if n - 1 > 0 && Connections !in g.edgeSets {
        ResidualErrorIsFinal(g, n - 1, n, skipType, layer);
      } else if ResidualRun(g, n - 1, skipType, layer).Ok? {
        var prev := ResidualRun(g, n - 1, skipType, layer).value;
        var u := UpdateFrames(prev, n - 1, Connections, layer);
        if u.Ok? {
          UpdateFramesKeeps(prev, n - 1, Connections, layer);
          assert IsShape(State(u.value), |State(prev)|, d);
          if n >= 2 && skipType == SumSkip {
            assert SameShape(State(prev), State(u.value));
            ResidualSumFacts(prev, u.value);
          }
        }
      }
    }
  }

  /** Why round 0 is exempt: were the first round a residual block, a
      fixed-width layer of width d on an initial state of another width
      would make the sum fail. */
  lemma ResidualFirstRoundWouldMismatch(g: GraphTensor, layer: Layer, d: nat)
    requires HasState(g) && Connections in g.edgeSets && FixedWidth(layer, d)
    requires |State(g)| > 0 && |State(g)[0]| != d
    ensures ResidualBlock(g, 0, SumSkip, layer) == Err(ShapeMismatch)
    ensures ResidualRun(g, 1, SumSkip, layer).Ok?
  {
    var u := UpdateFrames(g, 0, Connections, layer);
    UpdateFramesKeeps(g, 0, Connections, layer);
    assert IsShape(State(u.value), |State(g)|, d);
    assert |State(u.value)[0]| == d;
  }

  /** "connections" is not the name of any edge set the dataset builder
      creates: those all carry an index suffix. */
  lemma ConnectionsNotAView(k: nat)
    ensures Connections !in ViewNames(k)
  {
    forall i | 0 <= i < k ensures ConnectionsName(i) != Connections {
      assert |ConnectionsName(i)| > |Connections|;
    }
  }

  /** An example from the dataset builder, initialised, has no edge set
      "connections": any residual model with at least one round rejects
      it at round 0. */
  lemma ResidualRejectsBuiltGraphs(g: GraphTensor, k: nat, n: nat, skipType: string, layer: Layer)
    requires HasState(g) && g.edgeSets.Keys == ViewNames(k) && n > 0
    ensures ResidualRun(g, n, skipType, layer) == Err(UnknownEdgeSet(Connections))
  {
    ConnectionsNotAView(k);
    if n > 1 {
      ResidualErrorIsFinal(g, 1, n, skipType, layer);
    }
  }

  /** With "frames" the only node set the edge sets connect, the sum keeps
      the graph-tensor invariants. */
  lemma ResidualSumWellFormed(inputs: GraphTensor, outputs: GraphTensor)
    requires WellFormed(outputs) && ResidualSum(inputs, outputs, SumSkip).Ok?
    requires forall n :: n in outputs.edgeSets ==>
               outputs.edgeSets[n].adjacency.sourceSet == Frames && outputs.edgeSets[n].adjacency.targetSet == Frames
    requires Total(outputs.nodeSets[Frames].sizes) == |State(inputs)|
    ensures WellFormed(ResidualSum(inputs, outputs, SumSkip).value)
    ensures ComponentsClosed(outputs) ==> ComponentsClosed(ResidualSum(inputs, outputs, SumSkip).value)
  {
    var r := ResidualSum(inputs, outputs, SumSkip).value;
    ResidualSumFacts(inputs, outputs);
    var out := outputs.nodeSets[Frames];
    assert NodeSetShaped(out);
    assert NodeSetShaped(r.nodeSets[Frames]);
    forall n | n in r.edgeSets ensures EdgeSetShaped(r.edgeSets[n], r.nodeSets) {
      assert EdgeSetShaped(outputs.edgeSets[n], outputs.nodeSets);
    }
    if ComponentsClosed(outputs) {
      forall n | n in r.edgeSets
        ensures var es := r.edgeSets[n];
                es.adjacency.sourceSet in r.nodeSets && es.adjacency.targetSet in r.nodeSets &&
                EdgeSetClosed(es, r.nodeSets)
      {
        assert EdgeSetClosed(outputs.edgeSets[n], outputs.nodeSets);
      }
    }
  }
}
