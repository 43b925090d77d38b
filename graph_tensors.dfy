/** The graph-tensor pieces the model works on: node sets, edge sets
    and the context, each carrying a `sizes` sequence with one entry per
    graph component.  A single example has one component; a merged batch
    has one per example, so `sizes` doubles as the owner (graph-id)
    array. */
module GraphTensors {

  type Matrix = seq<seq<real>>

  const Frames: string := "frames"
  const FeaturesKey: string := "features"
  const HiddenState: string := "hidden_state"

  datatype NodeSet = NodeSet(sizes: seq<nat>, features: map<string, Matrix>)

  datatype Adjacency = Adjacency(sourceSet: string, sources: seq<nat>,
                                 targetSet: string, targets: seq<nat>)

  /** An edge set with its scalar "weights" feature. */
  datatype EdgeSet = EdgeSet(sizes: seq<nat>, weights: seq<real>, adjacency: Adjacency)

  datatype Context = Context(sizes: seq<nat>, features: map<string, Matrix>)

  datatype GraphTensor = GraphTensor(context: Context,
                                     nodeSets: map<string, NodeSet>,
                                     edgeSets: map<string, EdgeSet>)

  /** One directed, weighted edge. */
  datatype Edge = Edge(source: nat, target: nat, weight: real)

  datatype Error =
    | ShapeMismatch
    | UnknownNodeSet(name: string)
    | UnknownEdgeSet(name: string)
    | MissingFeature(name: string)
    | ZeroDivision

  datatype Result<T> = Ok(value: T) | Err(error: Error)

  /** The number of items over all components. */
  function Total(sizes: seq<nat>): nat {
    if |sizes| == 0 then 0 else sizes[0] + Total(sizes[1..])
  }

  lemma {:induction false} TotalAppend(a: seq<nat>, b: seq<nat>)
    ensures Total(a + b) == Total(a) + Total(b)
  {
    if |a| == 0 {
      assert a + b == b;
    } else {
      assert (a + b)[1..] == a[1..] + b;
      TotalAppend(a[1..], b);
    }
  }

  /** The component that item `i` belongs to: the entry of the owner
      (graph-id) array that `sizes` describes. */
  function Owner(sizes: seq<nat>, i: nat): nat {
    if |sizes| == 0 || i < sizes[0] then 0 else 1 + Owner(sizes[1..], i - sizes[0])
  }

  /** Item `i` of a concatenation belongs to the first part's component
      when it lies in the first part, and to the second part's component
      (renumbered after the first part's) otherwise. */
  lemma {:induction false} OwnerAppend(a: seq<nat>, b: seq<nat>, i: nat)
    ensures Owner(a + b, i) ==
            if i < Total(a) then Owner(a, i) else |a| + Owner(b, i - Total(a))
  {
    if |a| == 0 {
      assert a + b == b;
    } else {
      assert (a + b)[0] == a[0];
      assert (a + b)[1..] == a[1..] + b;
      if i >= a[0] {
        OwnerAppend(a[1..], b, i - a[0]);
      }
    }
  }

  /** The edges of an edge set, one record per index. */
  function Edges(es: EdgeSet): (r: seq<Edge>)
    ensures |r| == |es.adjacency.sources|
  {
    var adj := es.adjacency;
    seq(|adj.sources|, k requires 0 <= k < |adj.sources| =>
      Edge(adj.sources[k],
           if k < |adj.targets| then adj.targets[k] else 0,
           if k < |es.weights| then es.weights[k] else 0.0))
  }

  predicate NodeSetShaped(ns: NodeSet) {
    forall f :: f in ns.features ==> |ns.features[f]| == Total(ns.sizes)
  }

  predicate ContextShaped(c: Context) {
    forall f :: f in c.features ==> |c.features[f]| == Total(c.sizes)
  }

  /** Every endpoint indexes into the node set it names. */
  predicate EdgeSetShaped(es: EdgeSet, nodeSets: map<string, NodeSet>) {
    var adj := es.adjacency;
    && |adj.sources| == Total(es.sizes)
    && |adj.targets| == Total(es.sizes)
    && |es.weights| == Total(es.sizes)
    && adj.sourceSet in nodeSets
    && adj.targetSet in nodeSets
    && (forall k :: 0 <= k < |adj.sources| ==> adj.sources[k] < Total(nodeSets[adj.sourceSet].sizes))
    && (forall k :: 0 <= k < |adj.targets| ==> adj.targets[k] < Total(nodeSets[adj.targetSet].sizes))
  }

  /** The graph-tensor invariants: every piece has the same number of
      components, every feature has one row per item, and every edge
      endpoint lies in the range of its node set. */
  predicate WellFormed(g: GraphTensor) {
    var b := |g.context.sizes|;
    && ContextShaped(g.context)
    && (forall n :: n in g.nodeSets ==> |g.nodeSets[n].sizes| == b && NodeSetShaped(g.nodeSets[n]))
    && (forall n :: n in g.edgeSets ==> |g.edgeSets[n].sizes| == b && EdgeSetShaped(g.edgeSets[n], g.nodeSets))
  }

  /** No edge of `es` joins two components: both endpoints of edge k
      belong to the component that owns edge k. */
  predicate EdgeSetClosed(es: EdgeSet, nodeSets: map<string, NodeSet>)
    requires es.adjacency.sourceSet in nodeSets && es.adjacency.targetSet in nodeSets
  {
    var adj := es.adjacency;
    && (forall k :: 0 <= k < |adj.sources| ==>
          Owner(nodeSets[adj.sourceSet].sizes, adj.sources[k]) == Owner(es.sizes, k))
    && (forall k :: 0 <= k < |adj.targets| ==>
          Owner(nodeSets[adj.targetSet].sizes, adj.targets[k]) == Owner(es.sizes, k))
  }

  predicate ComponentsClosed(g: GraphTensor) {
    forall n :: n in g.edgeSets ==>
      var es := g.edgeSets[n];
      es.adjacency.sourceSet in g.nodeSets && es.adjacency.targetSet in g.nodeSets &&
      EdgeSetClosed(es, g.nodeSets)
  }

  /** Two node-set maps with the same names and the same sizes. */
  predicate SameSizes(x: map<string, NodeSet>, y: map<string, NodeSet>) {
    x.Keys == y.Keys && forall n :: n in x ==> x[n].sizes == y[n].sizes
  }

  /** The invariants depend on the node sets only through their sizes and
      the shapes of their features: replacing the features by ones of the
      same shape keeps a graph well formed and its components closed. */
  lemma SameSizesKeepInvariants(g: GraphTensor, r: GraphTensor)
    requires WellFormed(g)
    requires r.context == g.context && r.edgeSets == g.edgeSets && SameSizes(g.nodeSets, r.nodeSets)
    requires forall n :: n in r.nodeSets ==> NodeSetShaped(r.nodeSets[n])
    ensures WellFormed(r)
    ensures ComponentsClosed(g) ==> ComponentsClosed(r)
  {
    forall n | n in r.edgeSets ensures EdgeSetShaped(r.edgeSets[n], r.nodeSets) {
      assert EdgeSetShaped(g.edgeSets[n], g.nodeSets);
    }
    if ComponentsClosed(g) {
      forall n | n in r.edgeSets
        ensures var es := r.edgeSets[n];
                es.adjacency.sourceSet in r.nodeSets && es.adjacency.targetSet in r.nodeSets &&
                EdgeSetClosed(es, r.nodeSets)
      {
        assert EdgeSetClosed(g.edgeSets[n], g.nodeSets);
      }
    }
  }

  /** The names a batch must share: node sets with their feature names,
      edge sets with the node sets they connect, and context features. */
  datatype Schema = Schema(nodeFeatures: map<string, set<string>>,
                           edgeEnds: map<string, (string, string)>,
                           contextFeatures: set<string>)

  function SchemaOf(g: GraphTensor): Schema {
    Schema(map n | n in g.nodeSets :: g.nodeSets[n].features.Keys,
           map n | n in g.edgeSets :: (g.edgeSets[n].adjacency.sourceSet, g.edgeSets[n].adjacency.targetSet),
           g.context.features.Keys)
  }

  /** Every edge set names node sets that exist. */
  predicate EndsDeclared(s: Schema) {
    forall n :: n in s.edgeEnds ==> s.edgeEnds[n].0 in s.nodeFeatures && s.edgeEnds[n].1 in s.nodeFeatures
  }

  /** `m` is an n×d matrix. */
  predicate IsShape(m: Matrix, n: nat, d: nat) {
    |m| == n && forall v :: 0 <= v < n ==> |m[v]| == d
  }
}
