/** `merge_batch_to_components`: a batch of graph tensors that share one
    schema becomes a single graph tensor whose components are the batch
    elements.  Features are concatenated in batch order, the `sizes` of
    every piece are concatenated (so they still record which example each
    item came from), and every edge endpoint of a later example is shifted
    by the number of nodes the earlier examples contribute to that node
    set.  The merge is modelled as a fold of a binary disjoint union,
    starting from the empty graph of the schema. */
module BatchMerge {
  import opened GraphTensors

  /** Adds `d` to every index. */
  function Shift(s: seq<nat>, d: nat): (r: seq<nat>)
    ensures |r| == |s|
  {
    seq(|s|, k requires 0 <= k < |s| => s[k] + d)
  }

  /** Row-wise concatenation of two feature dictionaries, keyed like the
      first. */
  function ConcatFeatures(x: map<string, Matrix>, y: map<string, Matrix>): (r: map<string, Matrix>)
    ensures r.Keys == x.Keys
  {
    map f | f in x :: x[f] + (if f in y then y[f] else [])
  }

  /** The number of nodes of node set `n` (0 when there is none). */
  function NodeTotal(g: GraphTensor, n: string): nat {
    if n in g.nodeSets then Total(g.nodeSets[n].sizes) else 0
  }

  function AppendNodeSet(x: NodeSet, y: NodeSet): NodeSet {
    NodeSet(x.sizes + y.sizes, ConcatFeatures(x.features, y.features))
  }

  /** The edges of `y` follow those of `x`, with source endpoints shifted
      by `ds` and target endpoints by `dt`. */
  function AppendEdgeSet(x: EdgeSet, y: EdgeSet, ds: nat, dt: nat): EdgeSet {
    EdgeSet(x.sizes + y.sizes, x.weights + y.weights,
            Adjacency(x.adjacency.sourceSet, x.adjacency.sources + Shift(y.adjacency.sources, ds),
                      x.adjacency.targetSet, x.adjacency.targets + Shift(y.adjacency.targets, dt)))
  }

  /** Two graph tensors with the same schema have the same piece names,
      feature names and edge-set endpoints. */
  lemma SchemaKeys(a: GraphTensor, b: GraphTensor)
    requires SchemaOf(a) == SchemaOf(b)
    ensures a.nodeSets.Keys == b.nodeSets.Keys
    ensures a.edgeSets.Keys == b.edgeSets.Keys
    ensures a.context.features.Keys == b.context.features.Keys
    ensures forall n :: n in a.nodeSets ==> a.nodeSets[n].features.Keys == b.nodeSets[n].features.Keys
    ensures forall n :: n in a.edgeSets ==>
              a.edgeSets[n].adjacency.sourceSet == b.edgeSets[n].adjacency.sourceSet &&
              a.edgeSets[n].adjacency.targetSet == b.edgeSets[n].adjacency.targetSet
  {
    var sa, sb := SchemaOf(a), SchemaOf(b);
    assert a.nodeSets.Keys == sa.nodeFeatures.Keys;
    assert b.nodeSets.Keys == sb.nodeFeatures.Keys;
    assert a.edgeSets.Keys == sa.edgeEnds.Keys;
    assert b.edgeSets.Keys == sb.edgeEnds.Keys;
    forall n | n in a.nodeSets ensures a.nodeSets[n].features.Keys == b.nodeSets[n].features.Keys {
      assert sa.nodeFeatures[n] == sb.nodeFeatures[n];
    }
    forall n | n in a.edgeSets
      ensures a.edgeSets[n].adjacency.sourceSet == b.edgeSets[n].adjacency.sourceSet
      ensures a.edgeSets[n].adjacency.targetSet == b.edgeSets[n].adjacency.targetSet
    {
      assert sa.edgeEnds[n] == sb.edgeEnds[n];
    }
  }

  /** The disjoint union of two graph tensors with the same schema: `b`'s
      components come after `a`'s. */
  function Append(a: GraphTensor, b: GraphTensor): (r: GraphTensor)
    requires SchemaOf(a) == SchemaOf(b)
  {
    SchemaKeys(a, b);
    GraphTensor(
      Context(a.context.sizes + b.context.sizes, ConcatFeatures(a.context.features, b.context.features)),
      map n | n in a.nodeSets :: AppendNodeSet(a.nodeSets[n], b.nodeSets[n]),
      map n | n in a.edgeSets ::
        var x := a.edgeSets[n];
        AppendEdgeSet(x, b.edgeSets[n], NodeTotal(a, x.adjacency.sourceSet), NodeTotal(a, x.adjacency.targetSet)))
  }

  /** The graph tensor with no components. */
  function Empty(s: Schema): (r: GraphTensor)
    ensures SchemaOf(r) == s
  {
    var r := GraphTensor(
      Context([], map f | f in s.contextFeatures :: []),
      map n | n in s.nodeFeatures :: NodeSet([], map f | f in s.nodeFeatures[n] :: []),
      map n | n in s.edgeEnds :: EdgeSet([], [], Adjacency(s.edgeEnds[n].0, [], s.edgeEnds[n].1, [])));
    assert forall n :: n in s.nodeFeatures ==> r.nodeSets[n].features.Keys == s.nodeFeatures[n];
    assert SchemaOf(r).nodeFeatures == s.nodeFeatures;
    assert SchemaOf(r).edgeEnds == s.edgeEnds;
    r
  }

  lemma AppendSchema(a: GraphTensor, b: GraphTensor)
    requires SchemaOf(a) == SchemaOf(b)
    ensures SchemaOf(Append(a, b)) == SchemaOf(a)
  {
    var r := Append(a, b);
    SchemaKeys(a, b);
    assert SchemaOf(r).nodeFeatures == SchemaOf(a).nodeFeatures;
    assert SchemaOf(r).edgeEnds == SchemaOf(a).edgeEnds;
  }

  /** All graphs of the batch have schema `s`. */
  predicate SameSchema(s: Schema, gs: seq<GraphTensor>) {
    forall i :: 0 <= i < |gs| ==> SchemaOf(gs[i]) == s
  }

  /** `merge_batch_to_components` on a batch whose elements all have
      schema `s`. */
  function Merge(s: Schema, gs: seq<GraphTensor>): (r: GraphTensor)
    requires SameSchema(s, gs)
    ensures SchemaOf(r) == s
  {
    if |gs| == 0 then Empty(s)
    else
      var m := Merge(s, gs[..|gs| - 1]);
      AppendSchema(m, gs[|gs| - 1]);
      Append(m, gs[|gs| - 1])
  }

  /* ------------------------- a single union ------------------------- */

  /** The node set of the union holds `a`'s nodes followed by `b`'s: its
      sizes and every feature are the concatenations. */
  lemma AppendNodeSets(a: GraphTensor, b: GraphTensor, n: string)
    requires SchemaOf(a) == SchemaOf(b)
    requires n in a.nodeSets
    ensures n in b.nodeSets && n in Append(a, b).nodeSets
    ensures Append(a, b).nodeSets[n].sizes == a.nodeSets[n].sizes + b.nodeSets[n].sizes
    ensures NodeTotal(Append(a, b), n) == NodeTotal(a, n) + NodeTotal(b, n)
    ensures Append(a, b).nodeSets[n].features.Keys == a.nodeSets[n].features.Keys
    ensures forall f :: f in a.nodeSets[n].features ==>
              f in b.nodeSets[n].features &&
              Append(a, b).nodeSets[n].features[f] == a.nodeSets[n].features[f] + b.nodeSets[n].features[f]
  {
    SchemaKeys(a, b);
    TotalAppend(a.nodeSets[n].sizes, b.nodeSets[n].sizes);
  }

  /** Shifts every endpoint of an edge by the given offsets. */
  function ShiftEdges(es: seq<Edge>, ds: nat, dt: nat): (r: seq<Edge>)
    ensures |r| == |es|
  {
    seq(|es|, k requires 0 <= k < |es| => Edge(es[k].source + ds, es[k].target + dt, es[k].weight))
  }

  /** The endpoint and weight lists of an edge set have one entry per
      edge. */
  predicate Aligned(es: EdgeSet) {
    |es.adjacency.targets| == |es.adjacency.sources| && |es.weights| == |es.adjacency.sources|
  }

  lemma AppendEdgeSetEdges(x: EdgeSet, y: EdgeSet, ds: nat, dt: nat)
    requires Aligned(x) && Aligned(y)
    ensures Edges(AppendEdgeSet(x, y, ds, dt)) == Edges(x) + ShiftEdges(Edges(y), ds, dt)
  {
    var m := AppendEdgeSet(x, y, ds, dt);
    var lhs, rhs := Edges(m), Edges(x) + ShiftEdges(Edges(y), ds, dt);
    var nx := |x.adjacency.sources|;
    forall k | 0 <= k < |lhs| ensures lhs[k] == rhs[k] {
      if k >= nx {
        assert m.adjacency.sources[k] == y.adjacency.sources[k - nx] + ds;
        assert m.adjacency.targets[k] == y.adjacency.targets[k - nx] + dt;
        assert m.weights[k] == y.weights[k - nx];
      }
    }
  }

  /** Edge set `n` of the union lists `a`'s edges unchanged and then
      `b`'s edges renumbered by the node counts `a` contributes to the
      source and target node sets. */
  lemma AppendEdges(a: GraphTensor, b: GraphTensor, n: string)
    requires SchemaOf(a) == SchemaOf(b)
    requires WellFormed(a) && WellFormed(b)
    requires n in a.edgeSets
    ensures n in b.edgeSets && n in Append(a, b).edgeSets
    ensures Append(a, b).edgeSets[n].sizes == a.edgeSets[n].sizes + b.edgeSets[n].sizes
    ensures Edges(Append(a, b).edgeSets[n]) ==
            Edges(a.edgeSets[n]) +
            ShiftEdges(Edges(b.edgeSets[n]),
                       NodeTotal(a, a.edgeSets[n].adjacency.sourceSet),
                       NodeTotal(a, a.edgeSets[n].adjacency.targetSet))
  {
    SchemaKeys(a, b);
    var x, y := a.edgeSets[n], b.edgeSets[n];
    assert EdgeSetShaped(x, a.nodeSets) && EdgeSetShaped(y, b.nodeSets);
    AppendEdgeSetEdges(x, y, NodeTotal(a, x.adjacency.sourceSet), NodeTotal(a, x.adjacency.targetSet));
  }

  /** A per-edge-set step of `AppendWellFormed`. */
  lemma AppendEdgeSetShaped(x: EdgeSet, y: EdgeSet, an: map<string, NodeSet>, bn: map<string, NodeSet>,
                            mn: map<string, NodeSet>)
    requires EdgeSetShaped(x, an) && EdgeSetShaped(y, bn)
    requires x.adjacency.sourceSet == y.adjacency.sourceSet && x.adjacency.targetSet == y.adjacency.targetSet
    requires forall n :: n in an ==> n in bn && n in mn && mn[n].sizes == an[n].sizes + bn[n].sizes
    ensures EdgeSetShaped(AppendEdgeSet(x, y, Total(an[x.adjacency.sourceSet].sizes),
                                        Total(an[x.adjacency.targetSet].sizes)), mn)
  {
    var src, tgt := x.adjacency.sourceSet, x.adjacency.targetSet;
    var ds, dt := Total(an[src].sizes), Total(an[tgt].sizes);
    var m := AppendEdgeSet(x, y, ds, dt);
    TotalAppend(x.sizes, y.sizes);
    TotalAppend(an[src].sizes, bn[src].sizes);
    TotalAppend(an[tgt].sizes, bn[tgt].sizes);
    var nx := |x.adjacency.sources|;
    forall k | 0 <= k < |m.adjacency.sources| ensures m.adjacency.sources[k] < Total(mn[src].sizes) {
      if k >= nx {
        assert m.adjacency.sources[k] == y.adjacency.sources[k - nx] + ds;
      }
    }
    forall k | 0 <= k < |m.adjacency.targets| ensures m.adjacency.targets[k] < Total(mn[tgt].sizes) {
      if k >= nx {
        assert m.adjacency.targets[k] == y.adjacency.targets[k - nx] + dt;
      }
    }
  }

  /** Merging keeps the graph-tensor invariants: equal component counts,
      one feature row per item and endpoints in range. */
  lemma AppendWellFormed(a: GraphTensor, b: GraphTensor)
    requires SchemaOf(a) == SchemaOf(b)
    requires WellFormed(a) && WellFormed(b)
    ensures WellFormed(Append(a, b))
    ensures Append(a, b).context.sizes == a.context.sizes + b.context.sizes
  {
    SchemaKeys(a, b);
    var r := Append(a, b);
    TotalAppend(a.context.sizes, b.context.sizes);
    forall n | n in r.nodeSets
      ensures |r.nodeSets[n].sizes| == |r.context.sizes| && NodeSetShaped(r.nodeSets[n])
    {
      AppendNodeSets(a, b, n);
    }
    forall n | n in a.nodeSets ensures r.nodeSets[n].sizes == a.nodeSets[n].sizes + b.nodeSets[n].sizes {
      AppendNodeSets(a, b, n);
    }
    forall n | n in r.edgeSets
      ensures |r.edgeSets[n].sizes| == |r.context.sizes| && EdgeSetShaped(r.edgeSets[n], r.nodeSets)
    {
      var x := a.edgeSets[n];
      AppendEdgeSetShaped(x, b.edgeSets[n], a.nodeSets, b.nodeSets, r.nodeSets);
    }
  }

  /** A per-edge-set step of `AppendClosed`. */
  lemma AppendEdgeSetClosed(x: EdgeSet, y: EdgeSet, an: map<string, NodeSet>, bn: map<string, NodeSet>,
                            mn: map<string, NodeSet>)
    requires EdgeSetShaped(x, an) && EdgeSetShaped(y, bn)
    requires EdgeSetClosed(x, an) && EdgeSetClosed(y, bn)
    requires x.adjacency.sourceSet == y.adjacency.sourceSet && x.adjacency.targetSet == y.adjacency.targetSet
    requires |an[x.adjacency.sourceSet].sizes| == |x.sizes| && |an[x.adjacency.targetSet].sizes| == |x.sizes|
    requires forall n :: n in an ==> n in bn && n in mn && mn[n].sizes == an[n].sizes + bn[n].sizes
    ensures var m := AppendEdgeSet(x, y, Total(an[x.adjacency.sourceSet].sizes),
                                   Total(an[x.adjacency.targetSet].sizes));
            m.adjacency.sourceSet in mn && m.adjacency.targetSet in mn && EdgeSetClosed(m, mn)
  {
    var src, tgt := x.adjacency.sourceSet, x.adjacency.targetSet;
    var ds, dt := Total(an[src].sizes), Total(an[tgt].sizes);
    var m := AppendEdgeSet(x, y, ds, dt);
    var nx := |x.adjacency.sources|;
    forall k | 0 <= k < |m.adjacency.sources|
      ensures Owner(mn[src].sizes, m.adjacency.sources[k]) == Owner(m.sizes, k)
    {
      OwnerAppend(x.sizes, y.sizes, k);
      OwnerAppend(an[src].sizes, bn[src].sizes, m.adjacency.sources[k]);
      if k >= nx {
        assert m.adjacency.sources[k] == y.adjacency.sources[k - nx] + ds;
      }
    }
    forall k | 0 <= k < |m.adjacency.targets|
      ensures Owner(mn[tgt].sizes, m.adjacency.targets[k]) == Owner(m.sizes, k)
    {
      OwnerAppend(x.sizes, y.sizes, k);
      OwnerAppend(an[tgt].sizes, bn[tgt].sizes, m.adjacency.targets[k]);
      if k >= nx {
        assert m.adjacency.targets[k] == y.adjacency.targets[k - nx] + dt;
      }
    }
  }

  /** No edge of the union joins two components when none did before:
      `a`'s edges stay within `a`'s components and `b`'s, once shifted,
      within `b`'s. */
  lemma AppendClosed(a: GraphTensor, b: GraphTensor)
    requires SchemaOf(a) == SchemaOf(b)
    requires WellFormed(a) && WellFormed(b)
    requires ComponentsClosed(a) && ComponentsClosed(b)
    ensures ComponentsClosed(Append(a, b))
  {
    SchemaKeys(a, b);
    var r := Append(a, b);
    forall n | n in a.nodeSets ensures r.nodeSets[n].sizes == a.nodeSets[n].sizes + b.nodeSets[n].sizes {
      AppendNodeSets(a, b, n);
    }
    forall n | n in r.edgeSets
      ensures r.edgeSets[n].adjacency.sourceSet in r.nodeSets && r.edgeSets[n].adjacency.targetSet in r.nodeSets
      ensures EdgeSetClosed(r.edgeSets[n], r.nodeSets)
    {
      AppendEdgeSetClosed(a.edgeSets[n], b.edgeSets[n], a.nodeSets, b.nodeSets, r.nodeSets);
    }
  }

  /* --------------------------- the whole batch --------------------------- */

  lemma EmptyWellFormed(s: Schema)
    requires EndsDeclared(s)
    ensures WellFormed(Empty(s)) && ComponentsClosed(Empty(s))
  {
  }

  lemma SameSchemaPrefix(s: Schema, gs: seq<GraphTensor>, k: nat)
    requires SameSchema(s, gs) && k <= |gs|
    ensures SameSchema(s, gs[..k])
  {
  }

  /** The merged batch is well formed and has no edge between components
      when every example is. */
  lemma {:induction false} MergeClosed(s: Schema, gs: seq<GraphTensor>)
    requires EndsDeclared(s) && SameSchema(s, gs)
    requires forall i :: 0 <= i < |gs| ==> WellFormed(gs[i]) && ComponentsClosed(gs[i])
    ensures WellFormed(Merge(s, gs)) && ComponentsClosed(Merge(s, gs))
  {
    if |gs| == 0 {
      EmptyWellFormed(s);
    } else {
      var p := gs[..|gs| - 1];
      SameSchemaPrefix(s, gs, |gs| - 1);
      MergeClosed(s, p);
      AppendWellFormed(Merge(s, p), gs[|gs| - 1]);
      AppendClosed(Merge(s, p), gs[|gs| - 1]);
    }
  }

  /** Σ over the batch of the nodes each example has in node set `n`. */
  function SumNodes(gs: seq<GraphTensor>, n: string): nat {
    if |gs| == 0 then 0 else SumNodes(gs[..|gs| - 1], n) + NodeTotal(gs[|gs| - 1], n)
  }

  /** The merged node set holds as many nodes as the examples together. */
  lemma {:induction false} MergeNodeTotal(s: Schema, gs: seq<GraphTensor>, n: string)
    requires SameSchema(s, gs) && n in s.nodeFeatures
    ensures NodeTotal(Merge(s, gs), n) == SumNodes(gs, n)
  {
    var m := Merge(s, gs);
    assert n in m.nodeSets by {
      assert SchemaOf(m).nodeFeatures.Keys == m.nodeSets.Keys;
    }
    if |gs| > 0 {
      var p := gs[..|gs| - 1];
      SameSchemaPrefix(s, gs, |gs| - 1);
      MergeNodeTotal(s, p, n);
      var mp := Merge(s, p);
      assert n in mp.nodeSets by {
        assert SchemaOf(mp).nodeFeatures.Keys == mp.nodeSets.Keys;
      }
      AppendNodeSets(mp, gs[|gs| - 1], n);
    }
  }

  /** A batch of B examples with N nodes each merges to B·N nodes (32
      examples of 98 frames give 3136). */
  lemma {:induction false} MergeUniformNodeTotal(s: Schema, gs: seq<GraphTensor>, n: string, size: nat)
    requires SameSchema(s, gs) && n in s.nodeFeatures
    requires forall i :: 0 <= i < |gs| ==> NodeTotal(gs[i], n) == size
    ensures NodeTotal(Merge(s, gs), n) == |gs| * size
  {
    MergeNodeTotal(s, gs, n);
    UniformSum(gs, n, size);
  }

  lemma {:induction false} UniformSum(gs: seq<GraphTensor>, n: string, size: nat)
    requires forall i :: 0 <= i < |gs| ==> NodeTotal(gs[i], n) == size
    ensures SumNodes(gs, n) == |gs| * size
  {
    if |gs| > 0 {
      UniformSum(gs[..|gs| - 1], n, size);
      assert (|gs| - 1) * size + size == |gs| * size;
    }
  }

  /** The merged context has one component per component of the
      examples, in batch order: with single-component examples, one per
      example. */
  lemma {:induction false} MergeComponents(s: Schema, gs: seq<GraphTensor>)
    requires SameSchema(s, gs)
    requires forall i :: 0 <= i < |gs| ==> |gs[i].context.sizes| == 1
    ensures |Merge(s, gs).context.sizes| == |gs|
    ensures forall i :: 0 <= i < |gs| ==> Merge(s, gs).context.sizes[i] == gs[i].context.sizes[0]
  {
    if |gs| > 0 {
      SameSchemaPrefix(s, gs, |gs| - 1);
      MergeComponents(s, gs[..|gs| - 1]);
    }
  }

  lemma AppendEmptyEdgeSet(x: EdgeSet)
    ensures AppendEdgeSet(EdgeSet([], [], Adjacency(x.adjacency.sourceSet, [], x.adjacency.targetSet, [])), x, 0, 0) == x
  {
    assert Shift(x.adjacency.sources, 0) == x.adjacency.sources;
    assert Shift(x.adjacency.targets, 0) == x.adjacency.targets;
  }

  lemma ConcatEmptyFeatures(x: map<string, Matrix>, keys: set<string>)
    requires keys == x.Keys
    ensures ConcatFeatures(map f | f in keys :: [], x) == x
  {
    var r := ConcatFeatures(map f | f in keys :: [], x);
    forall f | f in x ensures r[f] == x[f] {
      assert [] + x[f] == x[f];
    }
  }

  lemma AppendEmptyNodeSets(g: GraphTensor)
    ensures Append(Empty(SchemaOf(g)), g).nodeSets == g.nodeSets
  {
    var s := SchemaOf(g);
    var r := Append(Empty(s), g);
    forall n | n in g.nodeSets ensures r.nodeSets[n] == g.nodeSets[n] {
      ConcatEmptyFeatures(g.nodeSets[n].features, s.nodeFeatures[n]);
    }
  }

  lemma AppendEmptyEdgeSets(g: GraphTensor)
    ensures Append(Empty(SchemaOf(g)), g).edgeSets == g.edgeSets
  {
    var r := Append(Empty(SchemaOf(g)), g);
    forall n | n in g.edgeSets ensures r.edgeSets[n] == g.edgeSets[n] {
      AppendEmptyEdgeSet(g.edgeSets[n]);
    }
  }

  /** The empty graph is a left unit of the union. */
  lemma AppendEmpty(g: GraphTensor)
    ensures Append(Empty(SchemaOf(g)), g) == g
  {
    ConcatEmptyFeatures(g.context.features, SchemaOf(g).contextFeatures);
    AppendEmptyNodeSets(g);
    AppendEmptyEdgeSets(g);
  }

  /** Merging a batch of one example gives that example back. */
  lemma MergeSingle(g: GraphTensor)
    ensures Merge(SchemaOf(g), [g]) == g
  {
    assert [g][..0] == [];
    AppendEmpty(g);
  }

  /* ----------------------- merging in several steps ----------------------- */

  /** The node count the union has in node set `n`, present or not. */
  lemma NodeTotalAppend(a: GraphTensor, b: GraphTensor, n: string)
    requires SchemaOf(a) == SchemaOf(b)
    ensures NodeTotal(Append(a, b), n) == NodeTotal(a, n) + NodeTotal(b, n)
  {
    SchemaKeys(a, b);
    if n in a.nodeSets {
      AppendNodeSets(a, b, n);
    }
  }

  lemma ShiftAppend(x: seq<nat>, y: seq<nat>, d: nat)
    ensures Shift(x + y, d) == Shift(x, d) + Shift(y, d)
  {
  }

  lemma ShiftShift(x: seq<nat>, d: nat, e: nat)
    ensures Shift(Shift(x, d), e) == Shift(x, d + e)
  {
  }

  lemma ConcatFeaturesAssoc(x: map<string, Matrix>, y: map<string, Matrix>, z: map<string, Matrix>)
    requires x.Keys == y.Keys == z.Keys
    ensures ConcatFeatures(ConcatFeatures(x, y), z) == ConcatFeatures(x, ConcatFeatures(y, z))
  {
    var l, r := ConcatFeatures(ConcatFeatures(x, y), z), ConcatFeatures(x, ConcatFeatures(y, z));
    forall f | f in x ensures l[f] == r[f] {
      assert l[f] == x[f] + y[f] + z[f];
      assert r[f] == x[f] + (y[f] + z[f]);
    }
  }

  /** Two successive shifted unions of edge sets are one union with the
      offsets added up. */
  lemma AppendEdgeSetAssoc(x: EdgeSet, y: EdgeSet, z: EdgeSet, ds: nat, dt: nat, es: nat, et: nat)
    ensures AppendEdgeSet(AppendEdgeSet(x, y, ds, dt), z, ds + es, dt + et) ==
            AppendEdgeSet(x, AppendEdgeSet(y, z, es, et), ds, dt)
  {
    ShiftAppend(y.adjacency.sources, Shift(z.adjacency.sources, es), ds);
    ShiftAppend(y.adjacency.targets, Shift(z.adjacency.targets, et), dt);
    ShiftShift(z.adjacency.sources, es, ds);
    ShiftShift(z.adjacency.targets, et, dt);
    assert es + ds == ds + es && et + dt == dt + et;
  }

  /** Node set `n` of the union. */
  lemma AppendNodeSetAt(a: GraphTensor, b: GraphTensor, n: string)
    requires SchemaOf(a) == SchemaOf(b) && n in a.nodeSets
    ensures n in Append(a, b).nodeSets && n in b.nodeSets
    ensures Append(a, b).nodeSets[n] == AppendNodeSet(a.nodeSets[n], b.nodeSets[n])
    ensures a.nodeSets[n].features.Keys == b.nodeSets[n].features.Keys
  {
    SchemaKeys(a, b);
  }

  lemma AppendNodeSetAssoc(x: NodeSet, y: NodeSet, z: NodeSet)
    requires x.features.Keys == y.features.Keys == z.features.Keys
    ensures AppendNodeSet(AppendNodeSet(x, y), z) == AppendNodeSet(x, AppendNodeSet(y, z))
  {
    ConcatFeaturesAssoc(x.features, y.features, z.features);
  }

  lemma AppendAssocNodeSets(a: GraphTensor, b: GraphTensor, c: GraphTensor)
    requires SchemaOf(a) == SchemaOf(b) && SchemaOf(b) == SchemaOf(c)
    requires SchemaOf(Append(a, b)) == SchemaOf(c) && SchemaOf(a) == SchemaOf(Append(b, c))
    ensures Append(Append(a, b), c).nodeSets == Append(a, Append(b, c)).nodeSets
  {
    var ab, bc := Append(a, b), Append(b, c);
    var l, r := Append(ab, c).nodeSets, Append(a, bc).nodeSets;
    AppendKeys(a, b);
    AppendKeys(ab, c);
    AppendKeys(a, bc);
    forall n | n in l ensures l[n] == r[n] {
      AppendNodeSetAt(a, b, n);
      AppendNodeSetAt(b, c, n);
      AppendNodeSetAt(ab, c, n);
      AppendNodeSetAt(a, bc, n);
      AppendNodeSetAssoc(a.nodeSets[n], b.nodeSets[n], c.nodeSets[n]);
    }
    NodeMapsEqual(l, r);
  }

  lemma NodeMapsEqual(l: map<string, NodeSet>, r: map<string, NodeSet>)
    requires l.Keys == r.Keys && forall n :: n in l ==> l[n] == r[n]
    ensures l == r
  {
  }

  /** Edge set `n` of the union, with its offsets spelled out. */
  lemma AppendEdgeSetAt(a: GraphTensor, b: GraphTensor, n: string)
    requires SchemaOf(a) == SchemaOf(b) && n in a.edgeSets
    ensures n in Append(a, b).edgeSets && n in b.edgeSets
    ensures var x := a.edgeSets[n];
            Append(a, b).edgeSets[n] ==
            AppendEdgeSet(x, b.edgeSets[n], NodeTotal(a, x.adjacency.sourceSet), NodeTotal(a, x.adjacency.targetSet))
    ensures b.edgeSets[n].adjacency.sourceSet == a.edgeSets[n].adjacency.sourceSet
    ensures b.edgeSets[n].adjacency.targetSet == a.edgeSets[n].adjacency.targetSet
    ensures Append(a, b).edgeSets[n].adjacency.sourceSet == a.edgeSets[n].adjacency.sourceSet
    ensures Append(a, b).edgeSets[n].adjacency.targetSet == a.edgeSets[n].adjacency.targetSet
  {
    SchemaKeys(a, b);
  }

  lemma AppendAssocEdgeSetAt(a: GraphTensor, b: GraphTensor, c: GraphTensor, n: string)
    requires SchemaOf(a) == SchemaOf(b) && SchemaOf(b) == SchemaOf(c)
    requires SchemaOf(Append(a, b)) == SchemaOf(c) && SchemaOf(a) == SchemaOf(Append(b, c))
    requires n in a.edgeSets
    ensures n in Append(Append(a, b), c).edgeSets && n in Append(a, Append(b, c)).edgeSets
    ensures Append(Append(a, b), c).edgeSets[n] == Append(a, Append(b, c)).edgeSets[n]
  {
    var ab, bc := Append(a, b), Append(b, c);
    AppendEdgeSetAt(a, b, n);
    AppendEdgeSetAt(b, c, n);
    var x, y, z := a.edgeSets[n], b.edgeSets[n], c.edgeSets[n];
    var src, tgt := x.adjacency.sourceSet, x.adjacency.targetSet;
    var ds, dt, es, et := NodeTotal(a, src), NodeTotal(a, tgt), NodeTotal(b, src), NodeTotal(b, tgt);
    var xy, yz := ab.edgeSets[n], bc.edgeSets[n];
    assert xy == AppendEdgeSet(x, y, ds, dt);
    assert yz == AppendEdgeSet(y, z, es, et);
    NodeTotalAppend(a, b, src);
    NodeTotalAppend(a, b, tgt);
    assert NodeTotal(ab, src) == ds + es && NodeTotal(ab, tgt) == dt + et;
    AppendEdgeSetAt(ab, c, n);
    AppendEdgeSetAt(a, bc, n);
    assert xy.adjacency.sourceSet == src && xy.adjacency.targetSet == tgt;
    var ls, lt := NodeTotal(ab, xy.adjacency.sourceSet), NodeTotal(ab, xy.adjacency.targetSet);
    assert ls == ds + es && lt == dt + et;
    AppendEdgeSetAssocStep(Append(ab, c).edgeSets[n], Append(a, bc).edgeSets[n], x, y, z, xy, yz,
                           ds, dt, es, et, ls, lt);
  }

  lemma AppendEdgeSetAssocStep(l: EdgeSet, r: EdgeSet, x: EdgeSet, y: EdgeSet, z: EdgeSet, xy: EdgeSet, yz: EdgeSet,
                               ds: nat, dt: nat, es: nat, et: nat, ls: nat, lt: nat)
    requires xy == AppendEdgeSet(x, y, ds, dt) && yz == AppendEdgeSet(y, z, es, et)
    requires l == AppendEdgeSet(xy, z, ls, lt) && ls == ds + es && lt == dt + et
    requires r == AppendEdgeSet(x, yz, ds, dt)
    ensures l == r
  {
    AppendEdgeSetAssoc(x, y, z, ds, dt, es, et);
  }

  /** The union has the first graph's node-set and edge-set names. */
  lemma AppendKeys(a: GraphTensor, b: GraphTensor)
    requires SchemaOf(a) == SchemaOf(b)
    ensures Append(a, b).nodeSets.Keys == a.nodeSets.Keys
    ensures Append(a, b).edgeSets.Keys == a.edgeSets.Keys
  {
  }

  lemma AppendAssocEdgeSets(a: GraphTensor, b: GraphTensor, c: GraphTensor)
    requires SchemaOf(a) == SchemaOf(b) && SchemaOf(b) == SchemaOf(c)
    requires SchemaOf(Append(a, b)) == SchemaOf(c) && SchemaOf(a) == SchemaOf(Append(b, c))
    ensures Append(Append(a, b), c).edgeSets == Append(a, Append(b, c)).edgeSets
  {
    var l, r := Append(Append(a, b), c).edgeSets, Append(a, Append(b, c)).edgeSets;
    AppendKeys(a, b);
    AppendKeys(Append(a, b), c);
    AppendKeys(a, Append(b, c));
    forall n | n in l ensures l[n] == r[n] {
      AppendAssocEdgeSetAt(a, b, c, n);
    }
    EdgeMapsEqual(l, r);
  }

  lemma EdgeMapsEqual(l: map<string, EdgeSet>, r: map<string, EdgeSet>)
    requires l.Keys == r.Keys && forall n :: n in l ==> l[n] == r[n]
    ensures l == r
  {
  }

  /** The union is associative on graphs of one schema. */
  lemma AppendAssoc(a: GraphTensor, b: GraphTensor, c: GraphTensor)
    requires SchemaOf(a) == SchemaOf(b) && SchemaOf(b) == SchemaOf(c)
    ensures SchemaOf(Append(a, b)) == SchemaOf(c) && SchemaOf(a) == SchemaOf(Append(b, c))
    ensures Append(Append(a, b), c) == Append(a, Append(b, c))
  {
    AppendSchema(a, b);
    AppendSchema(b, c);
    SchemaKeys(a, b);
    ConcatFeaturesAssoc(a.context.features, b.context.features, c.context.features);
    AppendAssocNodeSets(a, b, c);
    AppendAssocEdgeSets(a, b, c);
  }

  lemma ConcatEmptyRight(x: map<string, Matrix>, keys: set<string>)
    requires keys == x.Keys
    ensures ConcatFeatures(x, map f | f in keys :: []) == x
  {
    var r := ConcatFeatures(x, map f | f in keys :: []);
    forall f | f in x ensures r[f] == x[f] {
      assert x[f] + [] == x[f];
    }
  }

  lemma AppendEmptyRightNodeSets(g: GraphTensor)
    ensures Append(g, Empty(SchemaOf(g))).nodeSets == g.nodeSets
  {
    var s := SchemaOf(g);
    var r := Append(g, Empty(s));
    forall n | n in g.nodeSets ensures r.nodeSets[n] == g.nodeSets[n] {
      ConcatEmptyRight(g.nodeSets[n].features, s.nodeFeatures[n]);
      assert g.nodeSets[n].sizes + [] == g.nodeSets[n].sizes;
    }
  }

  lemma AppendEmptyRightEdgeSets(g: GraphTensor)
    ensures Append(g, Empty(SchemaOf(g))).edgeSets == g.edgeSets
  {
    var r := Append(g, Empty(SchemaOf(g)));
    forall n | n in g.edgeSets ensures r.edgeSets[n] == g.edgeSets[n] {
      var x := g.edgeSets[n];
      assert x.sizes + [] == x.sizes && x.weights + [] == x.weights;
      assert x.adjacency.sources + [] == x.adjacency.sources;
      assert x.adjacency.targets + [] == x.adjacency.targets;
    }
  }

  /** The empty graph is a right unit of the union as well. */
  lemma AppendEmptyRight(g: GraphTensor)
    ensures Append(g, Empty(SchemaOf(g))) == g
  {
    ConcatEmptyRight(g.context.features, SchemaOf(g).contextFeatures);
    assert g.context.sizes + [] == g.context.sizes;
    AppendEmptyRightNodeSets(g);
    AppendEmptyRightEdgeSets(g);
  }

  /** Merging a batch in two parts and then merging the results is the
      same as merging the whole batch at once. */
  lemma {:induction false} MergeConcat(s: Schema, xs: seq<GraphTensor>, ys: seq<GraphTensor>)
    requires SameSchema(s, xs) && SameSchema(s, ys)
    ensures SameSchema(s, xs + ys)
    ensures Merge(s, xs + ys) == Append(Merge(s, xs), Merge(s, ys))
  {
    if |ys| == 0 {
      assert xs + ys == xs;
      AppendEmptyRight(Merge(s, xs));
    } else {
      var p, y := ys[..|ys| - 1], ys[|ys| - 1];
      SameSchemaPrefix(s, ys, |ys| - 1);
      MergeConcat(s, xs, p);
      assert (xs + ys)[..|xs + ys| - 1] == xs + p;
      assert (xs + ys)[|xs + ys| - 1] == y;
      AppendAssoc(Merge(s, xs), Merge(s, p), y);
    }
  }
}
