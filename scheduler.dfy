/** The message-passing loop of the model builders whose rounds update
    only the "frames" node set (`base_gnn_model`,
    `base_gnn_model_using_gcn`, `base_gnn_weighted_model`): round i of
    `n_message_passing_layers` rebuilds the graph with a node-set update
    of "frames" that reads the edge set `connections_<i % V>`, where V is
    `n_dilation_layers` when dilation is on and 1 when it is off.  The
    convolution and next-state layers of a round are one parameter
    (`Layer`): given the round, the selected edge set and the current
    "frames" hidden state, it yields the new hidden state. */
module Scheduler {
  import opened Names
  import opened GraphTensors
  import opened GraphBuilder
  import opened WeightedConv

  /** The update of round r from the round's edge set and the old state. */
  type Layer = (nat, EdgeSet, Matrix) -> Matrix

  /** The number of views after `if not dilation: n_dilation_layers = 1`. */
  function DilationViews(dilation: bool, nDilationLayers: int): int {
    if dilation then nDilationLayers else 1
  }

  /** The remainder of `a` by a positive `b`, in [0, b): `a` is moved
      towards that range by steps of `b`. */
  function Mod(a: int, b: int): (r: int)
    requires b > 0
    ensures 0 <= r < b
    decreases if a < 0 then b - a else a
  {
    if a < 0 then Mod(a + b, b)
    else if a >= b then Mod(a - b, b)
    else a
  }

  /** The remainder repeats with period b and is the identity on [0, b). */
  lemma ModPeriodic(a: int, b: int)
    requires b > 0
    ensures Mod(a + b, b) == Mod(a, b)
    ensures 0 <= a < b ==> Mod(a, b) == a
  {
  }

  /** Python's `a % b`: the remainder takes the sign of the divisor. */
  function FloorMod(a: int, b: int): (r: int)
    requires b != 0
    ensures b > 0 ==> 0 <= r < b
    ensures b < 0 ==> b < r <= 0
  {
    if b > 0 then Mod(a, b) else -Mod(-a, -b)
  }

  /** The number of iterations of `range(n)`. */
  function Rounds(n: int): nat {
    if n < 0 then 0 else n
  }

  /** The view index of every round: round i uses `i % v`. */
  function Schedule(rounds: nat, v: int): (s: seq<int>)
    requires rounds == 0 || v != 0
    ensures |s| == rounds
  {
    seq(rounds, i requires 0 <= i < rounds => FloorMod(i, v))
  }

  /** One `GraphUpdate` of "frames" over the edge set `view`.  The edge
      set is looked up first, then the node set and its hidden state;
      the result replaces the "frames" features by the new hidden state
      and leaves the context, the edge sets and the other node sets as
      they were. */
  function UpdateFrames(g: GraphTensor, round: nat, view: string, layer: Layer): (r: Result<GraphTensor>)
    ensures r.Ok? <==> view in g.edgeSets && Frames in g.nodeSets && HiddenState in g.nodeSets[Frames].features
    ensures view !in g.edgeSets ==> r == Err(UnknownEdgeSet(view))
  {
    if view !in g.edgeSets then Err(UnknownEdgeSet(view))
    else if Frames !in g.nodeSets then Err(UnknownNodeSet(Frames))
    else if HiddenState !in g.nodeSets[Frames].features then Err(MissingFeature(HiddenState))
    else
      var ns := g.nodeSets[Frames];
      var h := layer(round, g.edgeSets[view], ns.features[HiddenState]);
      Ok(g.(nodeSets := g.nodeSets[Frames := NodeSet(ns.sizes, map[HiddenState := h])]))
  }

  /** A successful update changes only the "frames" features, which become
      the single hidden state the layer computes from the view's edge set. */
  lemma UpdateFramesKeeps(g: GraphTensor, round: nat, view: string, layer: Layer)
    requires UpdateFrames(g, round, view, layer).Ok?
    ensures var r := UpdateFrames(g, round, view, layer).value;
            && r.context == g.context
            && r.edgeSets == g.edgeSets
            && r.nodeSets.Keys == g.nodeSets.Keys
            && (forall n :: n in g.nodeSets && n != Frames ==> r.nodeSets[n] == g.nodeSets[n])
            && r.nodeSets[Frames].sizes == g.nodeSets[Frames].sizes
            && r.nodeSets[Frames].features ==
               map[HiddenState := layer(round, g.edgeSets[view], g.nodeSets[Frames].features[HiddenState])]
  {
  }

  /** The rounds of schedule `s` in order, stopping at the first error. */
  function Run(g: GraphTensor, s: seq<int>, layer: Layer): Result<GraphTensor> {
    if |s| == 0 then Ok(g)
    else
      match Run(g, s[..|s| - 1], layer)
      case Err(e) => Err(e)
      case Ok(h) => UpdateFrames(h, |s| - 1, ConnectionsName(s[|s| - 1]), layer)
  }

  /** The whole loop: `for i in range(n_message_passing_layers)` with
      `i % n_dilation_layers` (a ZeroDivisionError when that is 0). */
  function Passing(g: GraphTensor, layers: int, dilation: bool, nDilationLayers: int, layer: Layer): Result<GraphTensor> {
    var v := DilationViews(dilation, nDilationLayers);
    var rounds := Rounds(layers);
    if rounds > 0 && v == 0 then Err(ZeroDivision)
    else Run(g, Schedule(rounds, v), layer)
  }

  lemma ScheduleSnoc(i: nat, v: int)
    requires v != 0
    ensures Schedule(i + 1, v) == Schedule(i, v) + [FloorMod(i, v)]
  {
    assert Schedule(i + 1, v)[..i] == Schedule(i, v);
  }

  /** Once a round fails, later rounds do not run: the error is final. */
  lemma {:induction false} RunErrorIsFinal(g: GraphTensor, s: seq<int>, t: seq<int>, layer: Layer)
    requires Run(g, s, layer).Err?
    ensures Run(g, s + t, layer) == Run(g, s, layer)
    decreases |t|
  {
    if |t| > 0 {
      var u := s + t[..|t| - 1];
      assert (s + t)[..|s + t| - 1] == u;
      RunErrorIsFinal(g, s, t[..|t| - 1], layer);
    } else {
      assert s + t == s;
    }
  }

  /** A failure within the first m rounds is the result of any longer
      run of the same schedule. */
  lemma ScheduleErrorIsFinal(g: GraphTensor, m: nat, n: nat, v: int, layer: Layer)
    requires m <= n && v != 0 && Run(g, Schedule(m, v), layer).Err?
    ensures Run(g, Schedule(n, v), layer) == Run(g, Schedule(m, v), layer)
  {
    var t := Schedule(n, v)[m..];
    assert Schedule(n, v) == Schedule(m, v) + t;
    RunErrorIsFinal(g, Schedule(m, v), t, layer);
  }

  /** One more round on top of a successful prefix. */
  lemma RunSnoc(g: GraphTensor, i: nat, v: int, layer: Layer)
    requires v != 0 && Run(g, Schedule(i, v), layer).Ok?
    ensures Run(g, Schedule(i + 1, v), layer) ==
            UpdateFrames(Run(g, Schedule(i, v), layer).value, i, ConnectionsName(FloorMod(i, v)), layer)
  {
    ScheduleSnoc(i, v);
    var s := Schedule(i + 1, v);
    assert s[..|s| - 1] == Schedule(i, v);
  }

  /** The loop of those builders, threading the graph through the
      rounds; every edge set is left as it is. */
  method MessagePassing(g: GraphTensor, layers: int, dilation: bool, nDilationLayers: int, layer: Layer)
    returns (r: Result<GraphTensor>)
    ensures r == Passing(g, layers, dilation, nDilationLayers, layer)
  {
    var v := nDilationLayers;
    if !dilation {
      v := 1;
    }
    assert v == DilationViews(dilation, nDilationLayers);
    var graph := g;
    var i := 0;
    while i < layers
      invariant 0 <= i <= Rounds(layers)
      invariant i > 0 ==> v != 0
      invariant Run(g, Schedule(i, v), layer) == Ok(graph)
    {
      if v == 0 {
        return Err(ZeroDivision);
      }
      var dilLayerNum := FloorMod(i, v);
      RunSnoc(g, i, v, layer);
      var next := UpdateFrames(graph, i, ConnectionsName(dilLayerNum), layer);
      if next.Err? {
        ScheduleErrorIsFinal(g, i + 1, Rounds(layers), v, layer);
        return next;
      }
      graph := next.value;
      i := i + 1;
    }
    assert i == Rounds(layers);
    r := Ok(graph);
  }

  /* --------------------------- the schedule --------------------------- */

  /** The docstring's example: four rounds over two views use
      connections_0, connections_1, connections_0, connections_1. */
  lemma ScheduleExample()
    ensures Schedule(4, DilationViews(true, 2)) == [0, 1, 0, 1]
  {
    assert Mod(2, 2) == 0 && Mod(3, 2) == 1;
  }

  /** Without dilation every round reads `connections_0`, whatever
      `n_dilation_layers` says. */
  lemma NoDilationUsesFirstView(rounds: nat, nDilationLayers: int)
    ensures forall i :: 0 <= i < rounds ==> Schedule(rounds, DilationViews(false, nDilationLayers))[i] == 0
  {
  }

  /** With v > 0 views, round i uses view i mod v: a view in [0, v), the
      same one v rounds later, and every view once the rounds reach v. */
  lemma ScheduleCycles(rounds: nat, v: int)
    requires v > 0
    ensures forall i :: 0 <= i < rounds ==> 0 <= Schedule(rounds, v)[i] < v
    ensures forall i :: 0 <= i < rounds - v ==> Schedule(rounds, v)[i + v] == Schedule(rounds, v)[i]
    ensures forall d :: 0 <= d < v && d < rounds ==> Schedule(rounds, v)[d] == d
  {
    var s := Schedule(rounds, v);
    forall i | 0 <= i < rounds - v ensures s[i + v] == s[i] {
      ModPeriodic(i, v);
    }
  }

  /** A negative view index names no edge set a builder produces. */
  lemma NegativeViewMissing(d: int, k: nat)
    requires d < 0
    ensures ConnectionsName(d) !in ViewNames(k)
  {
    forall j | 0 <= j < k ensures ConnectionsName(j) != ConnectionsName(d) {
      if ConnectionsName(j) == ConnectionsName(d) {
        ConnectionsNameInjective(j, d);
      }
    }
  }

  /** With dilation on and a negative `n_dilation_layers` V, Python's
      remainder makes every view index lie in (V, 0]: V == -1 sends every
      round to `connections_0`, and any V < -1 sends the second round to
      view 1 + V < 0, which names no edge set of a built example. */
  lemma NegativeViews(rounds: nat, nDilationLayers: int, k: nat)
    requires nDilationLayers < 0
    ensures var s := Schedule(rounds, DilationViews(true, nDilationLayers));
            forall i :: 0 <= i < rounds ==> nDilationLayers < s[i] <= 0
    ensures nDilationLayers == -1 ==>
              forall i :: 0 <= i < rounds ==> Schedule(rounds, DilationViews(true, nDilationLayers))[i] == 0
    ensures nDilationLayers < -1 && rounds >= 2 ==>
              var s := Schedule(rounds, DilationViews(true, nDilationLayers));
              s[1] == 1 + nDilationLayers && ConnectionsName(s[1]) !in ViewNames(k)
  {
    var v := nDilationLayers;
    if v < -1 && rounds >= 2 {
      assert Mod(-1, -v) == -v - 1;
      assert Schedule(rounds, v)[1] == 1 + v;
      NegativeViewMissing(1 + v, k);
    }
  }

  /* ----------------------------- the rounds ----------------------------- */

  /** "frames" exists and carries a hidden state. */
  predicate HasState(g: GraphTensor) {
    Frames in g.nodeSets && HiddenState in g.nodeSets[Frames].features
  }

  /** The rounds change only the "frames" hidden state: the context, the
      edge sets, every other node set and the sizes stay as they were. */
  lemma {:induction false} RunKeeps(g: GraphTensor, s: seq<int>, layer: Layer)
    requires Run(g, s, layer).Ok?
    ensures var r := Run(g, s, layer).value;
            && r.context == g.context
            && r.edgeSets == g.edgeSets
            && r.nodeSets.Keys == g.nodeSets.Keys
            && (forall n :: n in g.nodeSets && n != Frames ==> r.nodeSets[n] == g.nodeSets[n])
            && (Frames in g.nodeSets ==> r.nodeSets[Frames].sizes == g.nodeSets[Frames].sizes)
            && (|s| > 0 ==> HasState(r) && r.nodeSets[Frames].features.Keys == {HiddenState})
  {
    if |s| > 0 {
      var p := s[..|s| - 1];
      RunKeeps(g, p, layer);
      UpdateFramesKeeps(Run(g, p, layer).value, |s| - 1, ConnectionsName(s[|s| - 1]), layer);
    }
  }

  /** A successful run keeps the edge sets and the "frames" hidden state. */
  lemma RunKeepsViews(g: GraphTensor, s: seq<int>, layer: Layer)
    requires HasState(g) && Run(g, s, layer).Ok?
    ensures HasState(Run(g, s, layer).value) && Run(g, s, layer).value.edgeSets == g.edgeSets
  {
    RunKeeps(g, s, layer);
    if |s| == 0 {
      assert Run(g, s, layer).value == g;
    }
  }

  /** Starting from a graph with a "frames" hidden state, the rounds
      succeed exactly when every scheduled view names an existing edge
      set. */
  lemma {:induction false} RunSucceeds(g: GraphTensor, s: seq<int>, layer: Layer)
    requires HasState(g)
    ensures Run(g, s, layer).Ok? <==> forall i :: 0 <= i < |s| ==> ConnectionsName(s[i]) in g.edgeSets
  {
    if |s| > 0 {
      var p := s[..|s| - 1];
      RunSucceeds(g, p, layer);
      ViewsSnoc(g, s, p);
      if Run(g, p, layer).Ok? {
        RunLastRound(g, s, layer);
      }
    }
  }

  /** The views of a schedule are present when those of all rounds but
      the last are and the last one is. */
  lemma ViewsSnoc(g: GraphTensor, s: seq<int>, p: seq<int>)
    requires |s| > 0 && p == s[..|s| - 1]
    ensures (forall i :: 0 <= i < |s| ==> ConnectionsName(s[i]) in g.edgeSets) <==>
            (forall i :: 0 <= i < |p| ==> ConnectionsName(p[i]) in g.edgeSets) &&
            ConnectionsName(s[|s| - 1]) in g.edgeSets
  {
    assert forall i :: 0 <= i < |p| ==> p[i] == s[i];
  }

  /** After a successful prefix the last round succeeds exactly when its
      view exists. */
  lemma RunLastRound(g: GraphTensor, s: seq<int>, layer: Layer)
    requires HasState(g) && |s| > 0 && Run(g, s[..|s| - 1], layer).Ok?
    ensures Run(g, s, layer).Ok? <==> ConnectionsName(s[|s| - 1]) in g.edgeSets
  {
    RunKeepsViews(g, s[..|s| - 1], layer);
  }

  /** When the rounds fail, the error names the first scheduled view that
      is missing. */
  lemma {:induction false} RunFirstError(g: GraphTensor, s: seq<int>, layer: Layer)
    requires HasState(g) && Run(g, s, layer).Err?
    ensures exists i :: 0 <= i < |s| && ConnectionsName(s[i]) !in g.edgeSets &&
                        Run(g, s, layer) == Err(UnknownEdgeSet(ConnectionsName(s[i]))) &&
                        forall j :: 0 <= j < i ==> ConnectionsName(s[j]) in g.edgeSets
  {
    var p, last := s[..|s| - 1], s[|s| - 1];
    var rp := Run(g, p, layer);
    if rp.Ok? {
      RunSucceeds(g, p, layer);
      RunKeepsViews(g, p, layer);
      assert Run(g, s, layer) == UpdateFrames(rp.value, |s| - 1, ConnectionsName(last), layer);
      assert forall j :: 0 <= j < |p| ==> s[j] == p[j];
    } else {
      RunFirstError(g, p, layer);
      var i :| 0 <= i < |p| && ConnectionsName(p[i]) !in g.edgeSets &&
               rp == Err(UnknownEdgeSet(ConnectionsName(p[i]))) &&
               forall j :: 0 <= j < i ==> ConnectionsName(p[j]) in g.edgeSets;
      assert s[i] == p[i];
      assert forall j :: 0 <= j < i ==> s[j] == p[j];
    }
  }

  /** On an example with edge sets `connections_0 … connections_{K-1}`
      and a "frames" hidden state, the loop succeeds exactly when there
      are no rounds, or the view count is non-zero and every round's view
      index lies in [0, K). */
  lemma PassingSucceeds(g: GraphTensor, k: nat, layers: int, dilation: bool, nDilationLayers: int, layer: Layer)
    requires HasState(g) && g.edgeSets.Keys == ViewNames(k)
    ensures var v := DilationViews(dilation, nDilationLayers);
            Passing(g, layers, dilation, nDilationLayers, layer).Ok? <==>
            Rounds(layers) == 0 ||
            (v != 0 && forall i :: 0 <= i < Rounds(layers) ==> 0 <= FloorMod(i, v) < k)
  {
    var v := DilationViews(dilation, nDilationLayers);
    var rounds := Rounds(layers);
    if rounds > 0 && v != 0 {
      var s := Schedule(rounds, v);
      RunSucceeds(g, s, layer);
      forall i | 0 <= i < rounds ensures ConnectionsName(s[i]) in g.edgeSets <==> 0 <= FloorMod(i, v) < k {
        assert s[i] == FloorMod(i, v);
        if ConnectionsName(s[i]) in g.edgeSets {
          var j :| 0 <= j < k && ConnectionsName(j) == ConnectionsName(s[i]);
          ConnectionsNameInjective(j, s[i]);
        }
      }
      assert Passing(g, layers, dilation, nDilationLayers, layer) == Run(g, s, layer);
    } else if rounds == 0 {
      assert Schedule(0, v) == [];
    }
  }

  /** With a positive view count, an example built from K matrices runs
      exactly when there are no rounds or the views the rounds reach,
      min(rounds, V) of them, are among the K: with dilation on, K must be
      at least V (or at least the number of rounds, if that is smaller). */
  lemma PassingNeedsEnoughViews(g: GraphTensor, k: nat, layers: int, dilation: bool, nDilationLayers: int, layer: Layer)
    requires HasState(g) && g.edgeSets.Keys == ViewNames(k)
    requires DilationViews(dilation, nDilationLayers) > 0
    ensures var v := DilationViews(dilation, nDilationLayers);
            var rounds := Rounds(layers);
            Passing(g, layers, dilation, nDilationLayers, layer).Ok? <==>
            rounds == 0 || (if rounds < v then rounds else v) <= k
  {
    var v := DilationViews(dilation, nDilationLayers);
    var rounds := Rounds(layers);
    PassingSucceeds(g, k, layers, dilation, nDilationLayers, layer);
    var reach := if rounds < v then rounds else v;
    if rounds > 0 {
      if reach <= k {
        forall i | 0 <= i < rounds ensures 0 <= FloorMod(i, v) < k {
          if rounds < v {
            ModPeriodic(i, v);
          }
        }
      } else {
        ModPeriodic(reach - 1, v);
        assert !(0 <= FloorMod(reach - 1, v) < k);
      }
    }
  }

  /** Only the scheduled views are read: two graphs with the same
      "frames" node set and the same scheduled edge sets give the same
      "frames" after the rounds. */
  lemma {:induction false} RunReadsOnlyScheduledViews(g1: GraphTensor, g2: GraphTensor, s: seq<int>, layer: Layer)
    requires Frames in g1.nodeSets && Frames in g2.nodeSets && g1.nodeSets[Frames] == g2.nodeSets[Frames]
    requires forall i :: 0 <= i < |s| ==>
               (ConnectionsName(s[i]) in g1.edgeSets <==> ConnectionsName(s[i]) in g2.edgeSets) &&
               (ConnectionsName(s[i]) in g1.edgeSets ==>
                  g1.edgeSets[ConnectionsName(s[i])] == g2.edgeSets[ConnectionsName(s[i])])
    ensures Run(g1, s, layer).Ok? <==> Run(g2, s, layer).Ok?
    ensures Run(g1, s, layer).Ok? ==>
              Run(g1, s, layer).value.nodeSets[Frames] == Run(g2, s, layer).value.nodeSets[Frames]
  {
    if |s| > 0 {
      var p := s[..|s| - 1];
      RunReadsOnlyScheduledViews(g1, g2, p, layer);
      if Run(g1, p, layer).Ok? {
        RunKeeps(g1, p, layer);
        RunKeeps(g2, p, layer);
      }
    }
  }

  /** A layer that keeps one state row per node. */
  ghost predicate KeepsRows(layer: Layer) {
    forall r: nat, es: EdgeSet, h: Matrix :: |layer(r, es, h)| == |h|
  }

  /** The rounds keep the graph-tensor invariants when the layer keeps
      one row per node. */
  lemma RunWellFormed(g: GraphTensor, s: seq<int>, layer: Layer)
    requires WellFormed(g) && KeepsRows(layer) && Run(g, s, layer).Ok?
    ensures WellFormed(Run(g, s, layer).value)
    ensures ComponentsClosed(g) ==> ComponentsClosed(Run(g, s, layer).value)
  {
    RunKeeps(g, s, layer);
    RunFramesRows(g, s, layer);
    var r := Run(g, s, layer).value;
    forall n | n in r.nodeSets ensures NodeSetShaped(r.nodeSets[n]) {
      if n != Frames {
        assert NodeSetShaped(g.nodeSets[n]);
      }
    }
    SameSizesKeepInvariants(g, r);
  }

  lemma {:induction false} RunFramesRows(g: GraphTensor, s: seq<int>, layer: Layer)
    requires WellFormed(g) && KeepsRows(layer) && Run(g, s, layer).Ok?
    ensures Frames in g.nodeSets ==>
              NodeSetShaped(Run(g, s, layer).value.nodeSets[Frames]) &&
              Run(g, s, layer).value.nodeSets[Frames].sizes == g.nodeSets[Frames].sizes
  {
    if |s| > 0 {
      var p := s[..|s| - 1];
      RunFramesRows(g, p, layer);
      RunKeeps(g, p, layer);
    }
  }

  /* ------------------- the weighted model's rounds ------------------- */

  /** A round of the weighted model: `WeightedSumConvolution` towards
      TARGET with the round's message layer, then `NextStateFromConcat`:
      the next-state layer applied to the old state followed by the
      pooled message. */
  function WeightedLayer(message: (nat, seq<real>) -> seq<real>,
                         next: (nat, seq<real>) -> seq<real>): Layer {
    (r: nat, es: EdgeSet, h: Matrix) =>
      var m := WeightedSumConvolution(es, Target, h, x => message(r, x));
      seq(|h|, v requires 0 <= v < |h| => next(r, h[v] + m[v]))
  }

  /** The weighted model keeps one state row per node. */
  lemma WeightedLayerKeepsRows(message: (nat, seq<real>) -> seq<real>, next: (nat, seq<real>) -> seq<real>)
    ensures KeepsRows(WeightedLayer(message, next))
  {
  }

  /** Over an all-zero adjacency matrix the round's message to every node
      is the message layer applied to the zero vector: no neighbour
      contributes. */
  lemma ZeroMatrixGivesZeroMessages(a: Matrix, r: nat, h: Matrix,
                                    message: (nat, seq<real>) -> seq<real>,
                                    next: (nat, seq<real>) -> seq<real>, v: nat)
    requires forall i, j :: 0 <= i < |a| && 0 <= j < |a[i]| ==> a[i][j] == 0.0
    requires v < |h|
    ensures WeightedLayer(message, next)(r, EdgeSetOf(a), h)[v] == next(r, h[v] + message(r, Zero(Width(h))))
  {
    var es := EdgeSetOf(a);
    if |Edges(es)| > 0 {
      var e := Edges(es)[0];
      assert e in PositiveEdges(a);
      PositiveEdgesMember(a, e);
      assert false;
    }
    IsolatedReceiverGetsZero(es, Target, h, x => message(r, x), v);
  }
}
