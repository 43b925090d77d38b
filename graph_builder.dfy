/** Building one example's graph tensor: the MFCC buffer becomes the
    node set "frames", and each adjacency matrix becomes an edge set
    `connections_<i>` holding its strictly positive entries, scanned in
    row-major order, each weighted by its entry. */
module GraphBuilder {
  import opened Names
  import opened GraphTensors

  /* ---------------- reshaping the feature buffer ---------------- */

  function Flatten(m: Matrix): seq<real> {
    if |m| == 0 then [] else m[0] + Flatten(m[1..])
  }

  /** The n rows of length f that a row-major buffer of n*f values holds. */
  function Rows(flat: seq<real>, n: nat, f: nat): (m: Matrix)
    requires |flat| == n * f
    ensures IsShape(m, n, f)
    ensures Flatten(m) == flat
  {
    if n == 0 then []
    else
      assert n * f == (n - 1) * f + f;
      var rest := Rows(flat[f..], n - 1, f);
      assert ([flat[..f]] + rest)[1..] == rest;
      assert flat[..f] + flat[f..] == flat;
      [flat[..f]] + rest
  }

  /** `tf.reshape(mfcc, [n, f])`: fails unless the buffer holds exactly
      n*f values; otherwise gives an n×f matrix whose row-major reading
      is the buffer. */
  function Reshape(flat: seq<real>, n: nat, f: nat): (r: Result<Matrix>)
    ensures r.Ok? <==> |flat| == n * f
    ensures r.Err? ==> r.error == ShapeMismatch
    ensures r.Ok? ==> IsShape(r.value, n, f) && Flatten(r.value) == flat
  {
    if |flat| != n * f then Err(ShapeMismatch) else Ok(Rows(flat, n, f))
  }

  /* ---------------- tf.where(A > 0) and tf.gather_nd ---------------- */

  /** The positive entries of row i, in ascending column order, each as
      an edge (i, column) weighted by its entry. */
  function RowEdges(i: nat, row: seq<real>): seq<Edge> {
    if |row| == 0 then []
    else
      var j := |row| - 1;
      RowEdges(i, row[..j]) + (if row[j] > 0.0 then [Edge(i, j, row[j])] else [])
  }

  /** The positive entries of a matrix in row-major scan order. */
  function PositiveEdges(a: Matrix): seq<Edge> {
    if |a| == 0 then []
    else
      var i := |a| - 1;
      PositiveEdges(a[..i]) + RowEdges(i, a[i])
  }

  /** `e` records a strictly positive entry of `a` with its value. */
  predicate IsPositiveEntry(a: Matrix, e: Edge) {
    e.source < |a| && e.target < |a[e.source]| && a[e.source][e.target] > 0.0 &&
    e.weight == a[e.source][e.target]
  }

  /** Strict row-major order on (source, target). */
  predicate Before(x: Edge, y: Edge) {
    x.source < y.source || (x.source == y.source && x.target < y.target)
  }

  predicate Sorted(s: seq<Edge>) {
    forall k, l :: 0 <= k < l < |s| ==> Before(s[k], s[l])
  }

  lemma {:induction false} RowEdgesMember(i: nat, row: seq<real>, e: Edge)
    ensures e in RowEdges(i, row) <==>
            e.source == i && e.target < |row| && row[e.target] > 0.0 && e.weight == row[e.target]
  {
    if |row| > 0 {
      var j := |row| - 1;
      RowEdgesMember(i, row[..j], e);
    }
  }

  /** Every edge extracted from a matrix is a positive entry of it, and
      every positive entry is extracted. */
  lemma {:induction false} PositiveEdgesMember(a: Matrix, e: Edge)
    ensures e in PositiveEdges(a) <==> IsPositiveEntry(a, e)
  {
    if |a| > 0 {
      var i := |a| - 1;
      PositiveEdgesMember(a[..i], e);
      RowEdgesMember(i, a[i], e);
    }
  }

  lemma SortedAppend(x: seq<Edge>, y: seq<Edge>)
    requires Sorted(x) && Sorted(y)
    requires forall p, q :: p in x && q in y ==> Before(p, q)
    ensures Sorted(x + y)
  {
    forall k, l | 0 <= k < l < |x + y| ensures Before((x + y)[k], (x + y)[l]) {
      if l < |x| {
      } else if k >= |x| {
        assert (x + y)[k] == y[k - |x|] && (x + y)[l] == y[l - |x|];
      } else {
        assert (x + y)[k] in x && (x + y)[l] in y;
      }
    }
  }

  lemma {:induction false} RowEdgesSorted(i: nat, row: seq<real>)
    ensures Sorted(RowEdges(i, row))
  {
    if |row| > 0 {
      var j := |row| - 1;
      RowEdgesSorted(i, row[..j]);
      var tail := if row[j] > 0.0 then [Edge(i, j, row[j])] else [];
      forall p, q | p in RowEdges(i, row[..j]) && q in tail ensures Before(p, q) {
        RowEdgesMember(i, row[..j], p);
      }
      SortedAppend(RowEdges(i, row[..j]), tail);
    }
  }

  /** The extracted edges come in strict row-major order. */
  lemma {:induction false} PositiveEdgesSorted(a: Matrix)
    ensures Sorted(PositiveEdges(a))
  {
    if |a| > 0 {
      var i := |a| - 1;
      PositiveEdgesSorted(a[..i]);
      RowEdgesSorted(i, a[i]);
      forall p, q | p in PositiveEdges(a[..i]) && q in RowEdges(i, a[i]) ensures Before(p, q) {
        PositiveEdgesMember(a[..i], p);
        RowEdgesMember(i, a[i], q);
      }
      SortedAppend(PositiveEdges(a[..i]), RowEdges(i, a[i]));
    }
  }

  /** Two strictly sorted sequences with the same elements are equal. */
  lemma {:induction false} SortedUnique(s: seq<Edge>, t: seq<Edge>)
    requires Sorted(s) && Sorted(t)
    requires forall e :: e in s <==> e in t
    ensures s == t
    decreases |s|
  {
    assert |s| > 0 ==> s[0] in t;
    assert |t| > 0 ==> t[0] in s;
    if |s| > 0 {
      assert s[0] == t[0];
      forall e ensures e in s[1..] <==> e in t[1..] {
        if e in s[1..] {
          var k :| 1 <= k < |s| && s[k] == e;
          assert Before(s[0], s[k]);
          assert e in t;
          var m :| 0 <= m < |t| && t[m] == e;
          assert m != 0;
          assert t[1..][m - 1] == e;
        }
        if e in t[1..] {
          var k :| 1 <= k < |t| && t[k] == e;
          assert Before(t[0], t[k]);
          assert e in s;
          var m :| 0 <= m < |s| && s[m] == e;
          assert m != 0;
          assert s[1..][m - 1] == e;
        }
      }
      SortedUnique(s[1..], t[1..]);
      assert s == [s[0]] + s[1..] && t == [t[0]] + t[1..];
    }
  }

  /** The extraction is characterised without reference to how it scans:
      any list that holds exactly the positive entries, in strict
      row-major order, is the extracted list. */
  lemma ExtractionUnique(a: Matrix, s: seq<Edge>)
    requires Sorted(s)
    requires forall e :: e in s <==> IsPositiveEntry(a, e)
    ensures s == PositiveEdges(a)
  {
    PositiveEdgesSorted(a);
    forall e ensures e in s <==> e in PositiveEdges(a) {
      PositiveEdgesMember(a, e);
    }
    SortedUnique(s, PositiveEdges(a));
  }

  /** The (row, column) positions of the positive entries. */
  function PositiveIndexSet(a: Matrix): set<(nat, nat)> {
    set i: nat, j: nat | i < |a| && j < |a[i]| && a[i][j] > 0.0 :: (i, j)
  }

  function Positions(s: seq<Edge>): seq<(nat, nat)> {
    seq(|s|, k requires 0 <= k < |s| => (s[k].source, s[k].target))
  }

  lemma {:induction false} DistinctCard<T>(s: seq<T>)
    requires forall k, l :: 0 <= k < l < |s| ==> s[k] != s[l]
    ensures |set x | x in s| == |s|
  {
    if |s| > 0 {
      var n := |s| - 1;
      DistinctCard(s[..n]);
      assert (set x | x in s) == (set x | x in s[..n]) + {s[n]};
      assert s[n] !in s[..n];
    }
  }

  /** No position is extracted twice. */
  lemma PositionsDistinct(a: Matrix)
    ensures var pos := Positions(PositiveEdges(a));
            forall k, l :: 0 <= k < l < |pos| ==> pos[k] != pos[l]
  {
    var pe := PositiveEdges(a);
    var pos := Positions(pe);
    PositiveEdgesSorted(a);
    forall k, l | 0 <= k < l < |pos| ensures pos[k] != pos[l] {
      assert Before(pe[k], pe[l]);
    }
  }

  /** The extracted positions are exactly the positive entries. */
  lemma PositionsArePositive(a: Matrix)
    ensures (set x | x in Positions(PositiveEdges(a))) == PositiveIndexSet(a)
  {
    var pe := PositiveEdges(a);
    var pos := Positions(pe);
    forall p | p in PositiveIndexSet(a) ensures p in pos {
      var e := Edge(p.0, p.1, a[p.0][p.1]);
      PositiveEdgesMember(a, e);
      var k :| 0 <= k < |pe| && pe[k] == e;
      assert pos[k] == p;
    }
    forall p | p in pos ensures p in PositiveIndexSet(a) {
      var k :| 0 <= k < |pos| && pos[k] == p;
      assert pe[k] in pe;
      PositiveEdgesMember(a, pe[k]);
    }
  }

  /** The number of extracted edges is the number of strictly positive
      entries (zero for an all-zero matrix). */
  lemma EdgeCount(a: Matrix)
    ensures |PositiveEdges(a)| == |PositiveIndexSet(a)|
  {
    var pos := Positions(PositiveEdges(a));
    PositionsDistinct(a);
    DistinctCard(pos);
    PositionsArePositive(a);
  }

  /* ---------------- one edge set per adjacency matrix ---------------- */

  function Sources(s: seq<Edge>): seq<nat> {
    seq(|s|, k requires 0 <= k < |s| => s[k].source)
  }

  function Targets(s: seq<Edge>): seq<nat> {
    seq(|s|, k requires 0 <= k < |s| => s[k].target)
  }

  function Weights(s: seq<Edge>): seq<real> {
    seq(|s|, k requires 0 <= k < |s| => s[k].weight)
  }

  /** The edge set built from adjacency matrix `a`: its edges, in order,
      are the extracted positive entries, both endpoints address node set
      "frames", and its one component holds all of them. */
  function EdgeSetOf(a: Matrix): (es: EdgeSet)
    ensures Edges(es) == PositiveEdges(a)
    ensures es.adjacency.sourceSet == Frames && es.adjacency.targetSet == Frames
  {
    var pe := PositiveEdges(a);
    EdgeSet([|pe|], Weights(pe), Adjacency(Frames, Sources(pe), Frames, Targets(pe)))
  }

  /** What the edge set of a matrix holds, index by index: its size is
      the count of positive entries, sources are row indices and targets
      column indices of positive entries, and each weight is the entry
      at (source, target). */
  lemma EdgeSetOfFacts(a: Matrix)
    ensures var es := EdgeSetOf(a);
      && es.sizes == [|PositiveIndexSet(a)|]
      && Total(es.sizes) == |PositiveIndexSet(a)|
      && |es.weights| == |es.adjacency.sources| == |es.adjacency.targets| == Total(es.sizes)
      && forall k :: 0 <= k < Total(es.sizes) ==>
           var i, j := es.adjacency.sources[k], es.adjacency.targets[k];
           i < |a| && j < |a[i]| && a[i][j] > 0.0 && es.weights[k] == a[i][j]
  {
    var pe := PositiveEdges(a);
    EdgeCount(a);
    var es := EdgeSetOf(a);
    assert Total(es.sizes) == |pe| by {
      assert es.sizes[1..] == [];
    }
    forall k | 0 <= k < |pe|
      ensures var i, j := es.adjacency.sources[k], es.adjacency.targets[k];
              i < |a| && j < |a[i]| && a[i][j] > 0.0 && es.weights[k] == a[i][j]
    {
      assert pe[k] in pe;
      PositiveEdgesMember(a, pe[k]);
    }
  }

  /** The names `connections_0 … connections_{k-1}`. */
  function ViewNames(k: nat): set<string> {
    set i | 0 <= i < k :: ConnectionsName(i)
  }

  lemma {:induction false} ViewNamesCard(k: nat)
    ensures |ViewNames(k)| == k
  {
    if k > 0 {
      ViewNamesCard(k - 1);
      assert ViewNames(k) == ViewNames(k - 1) + {ConnectionsName(k - 1)};
      if ConnectionsName(k - 1) in ViewNames(k - 1) {
        var i :| 0 <= i < k - 1 && ConnectionsName(i) == ConnectionsName(k - 1);
        ConnectionsNameInjective(i, k - 1);
      }
    }
  }

  /** The `edge_sets` dictionary after the loop has visited `ms`. */
  function EdgeSetsOf(ms: seq<Matrix>): map<string, EdgeSet> {
    if |ms| == 0 then map[]
    else
      var i := |ms| - 1;
      EdgeSetsOf(ms[..i])[ConnectionsName(i) := EdgeSetOf(ms[i])]
  }

  lemma {:induction false} EdgeSetsOfKeys(ms: seq<Matrix>)
    ensures EdgeSetsOf(ms).Keys == ViewNames(|ms|)
  {
    if |ms| > 0 {
      var n := |ms| - 1;
      EdgeSetsOfKeys(ms[..n]);
      assert ViewNames(|ms|) == ViewNames(n) + {ConnectionsName(n)};
    }
  }

  lemma {:induction false} EdgeSetsOfLookup(ms: seq<Matrix>, i: nat)
    requires i < |ms|
    ensures ConnectionsName(i) in EdgeSetsOf(ms)
    ensures EdgeSetsOf(ms)[ConnectionsName(i)] == EdgeSetOf(ms[i])
  {
    var n := |ms| - 1;
    if i < n {
      EdgeSetsOfLookup(ms[..n], i);
      if ConnectionsName(i) == ConnectionsName(n) {
        ConnectionsNameInjective(i, n);
      }
      assert ms[..n][i] == ms[i];
    }
  }

  /** One edge set per matrix, named by its position, holding that
      matrix's edges. */
  lemma EdgeSetsOfFacts(ms: seq<Matrix>)
    ensures EdgeSetsOf(ms).Keys == ViewNames(|ms|)
    ensures |EdgeSetsOf(ms)| == |ms|
    ensures forall i :: 0 <= i < |ms| ==> EdgeSetsOf(ms)[ConnectionsName(i)] == EdgeSetOf(ms[i])
  {
    EdgeSetsOfKeys(ms);
    ViewNamesCard(|ms|);
    forall i | 0 <= i < |ms| ensures EdgeSetsOf(ms)[ConnectionsName(i)] == EdgeSetOf(ms[i]) {
      EdgeSetsOfLookup(ms, i);
    }
  }

  /** The single-example graph: node set "frames" with the reshaped
      features, one component, and the edge sets of `ms`. */
  function GraphOf(mfcc: seq<real>, frames: nat, coefficients: nat, ms: seq<Matrix>): Result<GraphTensor> {
    match Reshape(mfcc, frames, coefficients)
    case Err(e) => Err(e)
    case Ok(m) =>
      Ok(GraphTensor(Context([1], map[]),
                     map[Frames := NodeSet([frames], map[FeaturesKey := m])],
                     EdgeSetsOf(ms)))
  }

  /** `mfccs_to_graph_tensors_for_dataset` (the label is passed through
      untouched and is not modelled). */
  method BuildGraphTensor(mfcc: seq<real>, frames: nat, coefficients: nat, ms: seq<Matrix>)
    returns (r: Result<GraphTensor>)
    ensures r == GraphOf(mfcc, frames, coefficients, ms)
  {
    var reshaped := Reshape(mfcc, frames, coefficients);
    if reshaped.Err? {
      return Err(reshaped.error);
    }
    var nodeSets := map[Frames := NodeSet([frames], map[FeaturesKey := reshaped.value])];
    var edgeSets: map<string, EdgeSet> := map[];
    var i := 0;
    while i < |ms|
      invariant 0 <= i <= |ms|
      invariant edgeSets == EdgeSetsOf(ms[..i])
    {
      var es := EdgeSetOf(ms[i]);
      assert ms[..i + 1][..i] == ms[..i];
      edgeSets := edgeSets[ConnectionsName(i) := es];
      i := i + 1;
    }
    assert ms[..|ms|] == ms;
    r := Ok(GraphTensor(Context([1], map[]), nodeSets, edgeSets));
  }

  /** The built graph: it fails only when the buffer does not hold
      frames×coefficients values; otherwise it has the single node set
      "frames" of `frames` nodes whose features read back as the buffer,
      exactly the edge sets `connections_0 … connections_{K-1}`, and
      edge set i is the one extracted from matrix i. */
  lemma BuiltGraphFacts(mfcc: seq<real>, frames: nat, coefficients: nat, ms: seq<Matrix>)
    ensures GraphOf(mfcc, frames, coefficients, ms).Ok? <==> |mfcc| == frames * coefficients
    ensures var r := GraphOf(mfcc, frames, coefficients, ms);
      r.Ok? ==>
        && r.value.nodeSets.Keys == {Frames}
        && Total(r.value.nodeSets[Frames].sizes) == frames
        && FeaturesKey in r.value.nodeSets[Frames].features
        && Flatten(r.value.nodeSets[Frames].features[FeaturesKey]) == mfcc
        && r.value.edgeSets.Keys == ViewNames(|ms|)
        && |r.value.edgeSets| == |ms|
        && forall i :: 0 <= i < |ms| ==> r.value.edgeSets[ConnectionsName(i)] == EdgeSetOf(ms[i])
  {
    EdgeSetsOfFacts(ms);
    assert Total([frames]) == frames by {
      assert [frames][1..] == [];
    }
  }

  lemma OwnerSingle(n: nat, i: nat)
    requires i < n
    ensures Owner([n], i) == 0 && Total([n]) == n
  {
    assert [n][1..] == [];
  }

  /** The edge set of a frames×frames matrix, next to a node set
      "frames" of one component with `frames` nodes: every endpoint is a
      valid node id, and all of it lies in that one component. */
  lemma EdgeSetOfShaped(a: Matrix, frames: nat, nodeSets: map<string, NodeSet>)
    requires IsShape(a, frames, frames)
    requires Frames in nodeSets && nodeSets[Frames].sizes == [frames]
    ensures |EdgeSetOf(a).sizes| == 1
    ensures EdgeSetShaped(EdgeSetOf(a), nodeSets)
    ensures EdgeSetClosed(EdgeSetOf(a), nodeSets)
  {
    var es := EdgeSetOf(a);
    EdgeSetOfFacts(a);
    var e := Total(es.sizes);
    assert es.sizes == [e];
    assert Total([frames]) == frames by { assert [frames][1..] == []; }
    forall k | 0 <= k < e
      ensures es.adjacency.sources[k] < frames && es.adjacency.targets[k] < frames
      ensures Owner([frames], es.adjacency.sources[k]) == Owner(es.sizes, k)
      ensures Owner([frames], es.adjacency.targets[k]) == Owner(es.sizes, k)
    {
      OwnerSingle(frames, es.adjacency.sources[k]);
      OwnerSingle(frames, es.adjacency.targets[k]);
      OwnerSingle(e, k);
    }
  }

  /** When every adjacency matrix is frames×frames, the built graph
      satisfies the graph-tensor invariants: every endpoint lies in
      [0, frames) and, having one component, no edge crosses one. */
  lemma BuiltGraphWellFormed(mfcc: seq<real>, frames: nat, coefficients: nat, ms: seq<Matrix>)
    requires |mfcc| == frames * coefficients
    requires forall i :: 0 <= i < |ms| ==> IsShape(ms[i], frames, frames)
    ensures GraphOf(mfcc, frames, coefficients, ms).Ok?
    ensures WellFormed(GraphOf(mfcc, frames, coefficients, ms).value)
    ensures ComponentsClosed(GraphOf(mfcc, frames, coefficients, ms).value)
  {
    var g := GraphOf(mfcc, frames, coefficients, ms).value;
    EdgeSetsOfKeys(ms);
    assert Total([1]) == 1 by { assert [1][1..] == []; }
    assert Total([frames]) == frames by { assert [frames][1..] == []; }
    forall n | n in g.edgeSets
      ensures |g.edgeSets[n].sizes| == 1
      ensures EdgeSetShaped(g.edgeSets[n], g.nodeSets)
      ensures EdgeSetClosed(g.edgeSets[n], g.nodeSets)
    {
      var i :| 0 <= i < |ms| && ConnectionsName(i) == n;
      EdgeSetsOfLookup(ms, i);
      EdgeSetOfShaped(ms[i], frames, g.nodeSets);
    }
  }
}
