/** `WeightedSumConvolution`: every edge carries the sender's hidden
    state scaled by the edge weight, the messages are summed per receiver
    node, and the per-node sums go through a dense layer (a parameter
    here).  Receivers with no incident edge get the zero vector before the
    dense layer. */
module WeightedConv {
  import opened GraphTensors
  import opened GraphBuilder

  /** tfgnn's endpoint tags. */
  datatype Tag = Source | Target | ContextTag

  /** The endpoint messages are read from: SOURCE when the receiver is
      TARGET, TARGET otherwise. */
  function SenderTag(receiver: Tag): (s: Tag)
    ensures receiver != ContextTag ==> s != ContextTag && s != receiver
    ensures receiver == ContextTag ==> s == Target
  {
    if receiver == Target then Source else Target
  }

  function Endpoint(e: Edge, tag: Tag): nat
    requires tag != ContextTag
  {
    if tag == Source then e.source else e.target
  }

  /** For a node receiver, receiver and sender are the two ends of the
      edge. */
  lemma SenderIsOtherEnd(e: Edge, receiver: Tag)
    requires receiver != ContextTag
    ensures {Endpoint(e, receiver), Endpoint(e, SenderTag(receiver))} == {e.source, e.target}
    ensures receiver == Target ==> Endpoint(e, SenderTag(receiver)) == e.source
    ensures receiver == Source ==> Endpoint(e, SenderTag(receiver)) == e.target
  {
  }

  /** Entry (u, c) of a state matrix, read as 0 outside it.  (An
      endpoint outside `h` cannot occur in a well-formed graph.) */
  function Cell(h: Matrix, u: nat, c: nat): real {
    if u < |h| && c < |h[u]| then h[u][c] else 0.0
  }

  /** Component c of the message edge `e` delivers to node v:
      weight × sender state if v is its receiver, 0 otherwise. */
  function Term(e: Edge, receiver: Tag, h: Matrix, v: nat, c: nat): real
    requires receiver != ContextTag
  {
    if Endpoint(e, receiver) == v then e.weight * Cell(h, Endpoint(e, SenderTag(receiver)), c) else 0.0
  }

  /** `pool_edges_to_node(..., reduce_type='sum')` at node v, component c. */
  function PoolSum(edges: seq<Edge>, receiver: Tag, h: Matrix, v: nat, c: nat): real
    requires receiver != ContextTag
  {
    if |edges| == 0 then 0.0 else Term(edges[0], receiver, h, v, c) + PoolSum(edges[1..], receiver, h, v, c)
  }

  function Zero(dim: nat): (z: seq<real>)
    ensures |z| == dim && forall c :: 0 <= c < dim ==> z[c] == 0.0
  {
    seq(dim, c => 0.0)
  }

  /** The hidden-state width: the length of the first row. */
  function Width(h: Matrix): nat {
    if |h| == 0 then 0 else |h[0]|
  }

  /** The pooled messages: one row of width `dim` per receiver node. */
  function Pooled(es: EdgeSet, receiver: Tag, h: Matrix, n: nat, dim: nat): (p: Matrix)
    requires receiver != ContextTag
    ensures IsShape(p, n, dim)
  {
    seq(n, v requires 0 <= v < n => seq(dim, c requires 0 <= c < dim => PoolSum(Edges(es), receiver, h, v, c)))
  }

  /** `WeightedSumConvolution.call` on the node set "frames" (both
      endpoints, so there is one receiver per row of `h`); `dense` is the
      layer's trailing dense block. */
  function WeightedSumConvolution(es: EdgeSet, receiver: Tag, h: Matrix,
                                  dense: seq<real> -> seq<real>): (r: Matrix)
    requires receiver != ContextTag
    ensures |r| == |h|
  {
    var p := Pooled(es, receiver, h, |h|, Width(h));
    seq(|h|, v requires 0 <= v < |h| => dense(p[v]))
  }

  lemma {:induction false} PoolSumAppend(x: seq<Edge>, y: seq<Edge>, receiver: Tag, h: Matrix, v: nat, c: nat)
    requires receiver != ContextTag
    ensures PoolSum(x + y, receiver, h, v, c) == PoolSum(x, receiver, h, v, c) + PoolSum(y, receiver, h, v, c)
  {
    if |x| == 0 {
      assert x + y == y;
    } else {
      assert (x + y)[0] == x[0];
      assert (x + y)[1..] == x[1..] + y;
      PoolSumAppend(x[1..], y, receiver, h, v, c);
    }
  }

  /** Taking edge k out of the list takes its term out of the sum. */
  lemma PoolSumRemove(y: seq<Edge>, k: nat, receiver: Tag, h: Matrix, v: nat, c: nat)
    requires receiver != ContextTag
    requires k < |y|
    ensures PoolSum(y, receiver, h, v, c) ==
            Term(y[k], receiver, h, v, c) + PoolSum(y[..k] + y[k + 1..], receiver, h, v, c)
  {
    assert y == y[..k] + ([y[k]] + y[k + 1..]);
    PoolSumAppend(y[..k], [y[k]] + y[k + 1..], receiver, h, v, c);
    PoolSumAppend([y[k]], y[k + 1..], receiver, h, v, c);
    PoolSumAppend(y[..k], y[k + 1..], receiver, h, v, c);
    assert PoolSum([y[k]], receiver, h, v, c) == Term(y[k], receiver, h, v, c);
  }

  lemma IndexOf<T>(y: seq<T>, e: T) returns (k: nat)
    requires e in multiset(y)
    ensures k < |y| && y[k] == e
  {
    assert e in y;
    k :| 0 <= k < |y| && y[k] == e;
  }

  /** Removing the same element from two permutations of each other
      leaves two permutations of each other. */
  lemma RemoveMatching<T>(x: seq<T>, y: seq<T>, k: nat)
    requires multiset(x) == multiset(y)
    requires 0 < |x| && k < |y| && y[k] == x[0]
    ensures multiset(x[1..]) == multiset(y[..k] + y[k + 1..])
  {
    assert x == [x[0]] + x[1..];
    assert y == y[..k] + [y[k]] + y[k + 1..];
    assert multiset(y) == multiset(y[..k]) + multiset{y[k]} + multiset(y[k + 1..]);
    assert multiset(x) == multiset{x[0]} + multiset(x[1..]);
    assert multiset(y[..k] + y[k + 1..]) == multiset(y[..k]) + multiset(y[k + 1..]);
    assert multiset(x[1..]) == multiset(x) - multiset{x[0]};
  }

  /** The sum does not depend on the order the edges are listed in. */
  lemma {:induction false} PoolSumPermutation(x: seq<Edge>, y: seq<Edge>, receiver: Tag, h: Matrix, v: nat, c: nat)
    requires receiver != ContextTag
    requires multiset(x) == multiset(y)
    ensures PoolSum(x, receiver, h, v, c) == PoolSum(y, receiver, h, v, c)
    decreases |x|
  {
    if |x| == 0 {
      assert |multiset(y)| == 0;
    } else {
      var k := IndexOf(y, x[0]);
      RemoveMatching(x, y, k);
      PoolSumRemove(y, k, receiver, h, v, c);
      PoolSumPermutation(x[1..], y[..k] + y[k + 1..], receiver, h, v, c);
    }
  }

  /** Listing the same edges in another order gives the same result:
      the reduction is order-invariant. */
  lemma ConvolutionOrderInvariant(es1: EdgeSet, es2: EdgeSet, receiver: Tag, h: Matrix,
                                  dense: seq<real> -> seq<real>)
    requires receiver != ContextTag
    requires multiset(Edges(es1)) == multiset(Edges(es2))
    ensures WeightedSumConvolution(es1, receiver, h, dense) == WeightedSumConvolution(es2, receiver, h, dense)
  {
    var p1 := Pooled(es1, receiver, h, |h|, Width(h));
    var p2 := Pooled(es2, receiver, h, |h|, Width(h));
    forall v | 0 <= v < |h| ensures p1[v] == p2[v] {
      forall c | 0 <= c < Width(h) ensures p1[v][c] == p2[v][c] {
        PoolSumPermutation(Edges(es1), Edges(es2), receiver, h, v, c);
      }
    }
    assert p1 == p2;
  }

  lemma {:induction false} PoolSumIsolated(edges: seq<Edge>, receiver: Tag, h: Matrix, v: nat, c: nat)
    requires receiver != ContextTag
    requires forall k :: 0 <= k < |edges| ==> Endpoint(edges[k], receiver) != v
    ensures PoolSum(edges, receiver, h, v, c) == 0.0
  {
    if |edges| > 0 {
      PoolSumIsolated(edges[1..], receiver, h, v, c);
    }
  }

  /** A node that is the receiver of no edge (in particular, every node
      when the edge set is empty) pools the zero vector, so its output is
      the dense layer applied to zero. */
  lemma IsolatedReceiverGetsZero(es: EdgeSet, receiver: Tag, h: Matrix,
                                 dense: seq<real> -> seq<real>, v: nat)
    requires receiver != ContextTag
    requires v < |h|
    requires forall k :: 0 <= k < |Edges(es)| ==> Endpoint(Edges(es)[k], receiver) != v
    ensures Pooled(es, receiver, h, |h|, Width(h))[v] == Zero(Width(h))
    ensures WeightedSumConvolution(es, receiver, h, dense)[v] == dense(Zero(Width(h)))
  {
    forall c | 0 <= c < Width(h) ensures Pooled(es, receiver, h, |h|, Width(h))[v][c] == 0.0 {
      PoolSumIsolated(Edges(es), receiver, h, v, c);
    }
  }

  /** A receiver with exactly one incident edge pools that edge's weight
      times its sender's state. */
  lemma SingleIncidentEdge(es: EdgeSet, receiver: Tag, h: Matrix, v: nat, k: nat, dim: nat)
    requires receiver != ContextTag
    requires IsShape(h, |h|, dim)
    requires k < |Edges(es)| && Endpoint(Edges(es)[k], receiver) == v
    requires Endpoint(Edges(es)[k], SenderTag(receiver)) < |h|
    requires forall l :: 0 <= l < |Edges(es)| && l != k ==> Endpoint(Edges(es)[l], receiver) != v
    ensures forall c :: 0 <= c < dim ==>
      PoolSum(Edges(es), receiver, h, v, c) ==
      Edges(es)[k].weight * h[Endpoint(Edges(es)[k], SenderTag(receiver))][c]
  {
    var edges := Edges(es);
    var u := Endpoint(edges[k], SenderTag(receiver));
    forall c | 0 <= c < dim
      ensures PoolSum(edges, receiver, h, v, c) == edges[k].weight * h[u][c]
    {
      PoolSumOnlyEdge(edges, receiver, h, v, k, c);
      assert Cell(h, u, c) == h[u][c];
    }
  }

  /** When edge k is the only one received at v, the pool at v is that
      edge's term. */
  lemma PoolSumOnlyEdge(edges: seq<Edge>, receiver: Tag, h: Matrix, v: nat, k: nat, c: nat)
    requires receiver != ContextTag
    requires k < |edges| && Endpoint(edges[k], receiver) == v
    requires forall l :: 0 <= l < |edges| && l != k ==> Endpoint(edges[l], receiver) != v
    ensures PoolSum(edges, receiver, h, v, c) == edges[k].weight * Cell(h, Endpoint(edges[k], SenderTag(receiver)), c)
  {
    var before, after := edges[..k], edges[k + 1..];
    assert edges == before + ([edges[k]] + after);
    PoolSumAppend(before, [edges[k]] + after, receiver, h, v, c);
    PoolSumAppend([edges[k]], after, receiver, h, v, c);
    assert forall l :: 0 <= l < |before| ==> before[l] == edges[l];
    PoolSumIsolated(before, receiver, h, v, c);
    assert forall l :: 0 <= l < |after| ==> after[l] == edges[k + 1 + l];
    PoolSumIsolated(after, receiver, h, v, c);
    PoolSumSingle(edges[k], receiver, h, v, c);
  }

  /* ------- the convolution over a built edge set is a matrix product ------- */

  predicate NonNegativeRow(row: seq<real>) {
    forall j :: 0 <= j < |row| ==> row[j] >= 0.0
  }

  predicate NonNegative(a: Matrix) {
    forall i :: 0 <= i < |a| ==> NonNegativeRow(a[i])
  }

  /** Σ_j row[j] · h[j][c]: one entry of A·h. */
  function RowProduct(row: seq<real>, h: Matrix, c: nat): real {
    if |row| == 0 then 0.0
    else
      var j := |row| - 1;
      RowProduct(row[..j], h, c) + row[j] * Cell(h, j, c)
  }

  /** a[u][v] · h[u][c], the term row u adds to entry (v, c) of Aᵀ·h. */
  function ColumnTerm(row: seq<real>, h: Matrix, u: nat, v: nat, c: nat): real {
    if v < |row| then row[v] * Cell(h, u, c) else 0.0
  }

  /** Σ_u a[u][v] · h[u][c]: one entry of Aᵀ·h. */
  function ColumnProduct(a: Matrix, h: Matrix, v: nat, c: nat): real {
    if |a| == 0 then 0.0
    else
      var u := |a| - 1;
      ColumnProduct(a[..u], h, v, c) + ColumnTerm(a[u], h, u, v, c)
  }

  lemma PoolSumSingle(e: Edge, receiver: Tag, h: Matrix, v: nat, c: nat)
    requires receiver != ContextTag
    ensures PoolSum([e], receiver, h, v, c) == Term(e, receiver, h, v, c)
  {
    assert [e][1..] == [];
  }

  /** The edge a row's last entry yields (none when it is 0). */
  function LastEdges(i: nat, row: seq<real>): seq<Edge>
    requires |row| > 0
  {
    var j := |row| - 1;
    if row[j] > 0.0 then [Edge(i, j, row[j])] else []
  }

  lemma LastEdgesPoolTarget(i: nat, row: seq<real>, h: Matrix, v: nat, c: nat)
    requires |row| > 0 && row[|row| - 1] >= 0.0
    ensures PoolSum(LastEdges(i, row), Target, h, v, c) ==
            if v == |row| - 1 then row[|row| - 1] * Cell(h, i, c) else 0.0
  {
    var j := |row| - 1;
    if row[j] > 0.0 {
      var e := Edge(i, j, row[j]);
      PoolSumSingle(e, Target, h, v, c);
      assert Endpoint(e, Target) == j && Endpoint(e, SenderTag(Target)) == i;
      assert Term(e, Target, h, v, c) == if v == j then row[j] * Cell(h, i, c) else 0.0;
      assert LastEdges(i, row) == [e];
    } else {
      assert row[j] == 0.0;
      assert row[j] * Cell(h, i, c) == 0.0;
      assert LastEdges(i, row) == [];
    }
  }

  lemma ColumnTermSnoc(row: seq<real>, h: Matrix, i: nat, v: nat, c: nat)
    requires |row| > 0
    ensures ColumnTerm(row, h, i, v, c) ==
            ColumnTerm(row[..|row| - 1], h, i, v, c) +
            (if v == |row| - 1 then row[|row| - 1] * Cell(h, i, c) else 0.0)
  {
    if v < |row| - 1 {
      assert row[..|row| - 1][v] == row[v];
    }
  }

  lemma {:induction false} RowEdgesPoolTarget(i: nat, row: seq<real>, h: Matrix, v: nat, c: nat)
    requires NonNegativeRow(row)
    ensures PoolSum(RowEdges(i, row), Target, h, v, c) == ColumnTerm(row, h, i, v, c)
  {
    if |row| > 0 {
      var prefix := row[..|row| - 1];
      assert NonNegativeRow(prefix);
      RowEdgesPoolTarget(i, prefix, h, v, c);
      assert RowEdges(i, row) == RowEdges(i, prefix) + LastEdges(i, row);
      PoolSumAppend(RowEdges(i, prefix), LastEdges(i, row), Target, h, v, c);
      LastEdgesPoolTarget(i, row, h, v, c);
      ColumnTermSnoc(row, h, i, v, c);
    }
  }

  lemma {:induction false} RowEdgesPoolSource(i: nat, row: seq<real>, h: Matrix, v: nat, c: nat)
    requires NonNegativeRow(row)
    ensures PoolSum(RowEdges(i, row), Source, h, v, c) == if i == v then RowProduct(row, h, c) else 0.0
  {
    if |row| > 0 {
      var j := |row| - 1;
      RowEdgesPoolSource(i, row[..j], h, v, c);
      var tail := if row[j] > 0.0 then [Edge(i, j, row[j])] else [];
      PoolSumAppend(RowEdges(i, row[..j]), tail, Source, h, v, c);
      if tail != [] {
        assert PoolSum(tail, Source, h, v, c) == Term(Edge(i, j, row[j]), Source, h, v, c);
      }
    }
  }

  lemma {:induction false} PositiveEdgesPoolTarget(a: Matrix, h: Matrix, v: nat, c: nat)
    requires NonNegative(a)
    ensures PoolSum(PositiveEdges(a), Target, h, v, c) == ColumnProduct(a, h, v, c)
  {
    if |a| > 0 {
      var u := |a| - 1;
      var prefix, row := a[..u], a[u];
      assert NonNegative(prefix) by {
        forall i | 0 <= i < |prefix| ensures NonNegativeRow(prefix[i]) {
          assert prefix[i] == a[i];
        }
      }
      PositiveEdgesPoolTarget(prefix, h, v, c);
      RowEdgesPoolTarget(u, row, h, v, c);
      assert PositiveEdges(a) == PositiveEdges(prefix) + RowEdges(u, row);
      PoolSumAppend(PositiveEdges(prefix), RowEdges(u, row), Target, h, v, c);
    }
  }

  lemma {:induction false} PositiveEdgesPoolSource(a: Matrix, h: Matrix, v: nat, c: nat)
    requires NonNegative(a)
    ensures PoolSum(PositiveEdges(a), Source, h, v, c) == if v < |a| then RowProduct(a[v], h, c) else 0.0
  {
    if |a| > 0 {
      var u := |a| - 1;
      var prefix, row := a[..u], a[u];
      assert NonNegative(prefix) by {
        forall i | 0 <= i < |prefix| ensures NonNegativeRow(prefix[i]) {
          assert prefix[i] == a[i];
        }
      }
      PositiveEdgesPoolSource(prefix, h, v, c);
      RowEdgesPoolSource(u, row, h, v, c);
      PoolSumAppend(PositiveEdges(prefix), RowEdges(u, row), Source, h, v, c);
      assert PositiveEdges(a) == PositiveEdges(prefix) + RowEdges(u, row);
      if v < u {
        assert prefix[v] == a[v];
      }
    }
  }

  /** On the edge set built from a non-negative adjacency matrix A, the
      pooled messages are the dense products: Aᵀ·h when messages flow to
      TARGET, A·h when they flow to SOURCE. */
  lemma PooledIsMatrixProduct(a: Matrix, h: Matrix, v: nat, c: nat)
    requires NonNegative(a)
    requires v < |h| && c < Width(h)
    ensures Pooled(EdgeSetOf(a), Target, h, |h|, Width(h))[v][c] == ColumnProduct(a, h, v, c)
    ensures Pooled(EdgeSetOf(a), Source, h, |h|, Width(h))[v][c] ==
            if v < |a| then RowProduct(a[v], h, c) else 0.0
  {
    PositiveEdgesPoolTarget(a, h, v, c);
    PositiveEdgesPoolSource(a, h, v, c);
  }
}
