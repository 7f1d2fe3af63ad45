/**
 * The adjacency structure and dense weight matrix both force engines build in
 * their constructors: an `n x n` table of optional edge attributes, filled
 * symmetrically edge by edge, and the flat `weights[i * n + j]` array read by
 * the spring computation.
 */
module Adjacency {
  import opened Wrappers
  import TextureLayout

  /** An input edge: endpoints are positions in the node list, `weight` as given. */
  datatype Edge = Edge(source: int, target: int, weight: real)

  /** Indexing `adj[source]` with an endpoint outside the node list throws. */
  datatype BuildError = EndpointOutOfRange(edge: nat)

  /** `adj[i][j]`: `None` for `undefined`, `Some(w)` for the attribute `{weight: w}`. */
  type Matrix = seq<seq<Option<real>>>

  predicate IsSquare(m: Matrix, n: nat) {
    |m| == n && forall i :: 0 <= i < n ==> |m[i]| == n
  }

  /** `Math.max(0, w)`. */
  function ClampWeight(w: real): (c: real)
    ensures c >= 0.0
    ensures c == w || (w < 0.0 && c == 0.0)
  {
    if w > 0.0 then w else 0.0
  }

  predicate InRange(e: Edge, n: nat) {
    0 <= e.source < n && 0 <= e.target < n
  }

  /** Edge `e` joins `i` and `j`, in either direction. */
  predicate Connects(e: Edge, i: int, j: int) {
    (e.source == i && e.target == j) || (e.source == j && e.target == i)
  }

  function Empty(n: nat): (m: Matrix)
    ensures IsSquare(m, n)
    ensures forall i, j :: 0 <= i < n && 0 <= j < n ==> m[i][j] == None
  {
    seq(n, _ => seq(n, _ => None))
  }

  /** Both writes of one loop iteration, `adj[s][t] = adj[t][s] = {weight: max(0, w)}`. */
  function Connect(m: Matrix, n: nat, e: Edge): (r: Matrix)
    requires IsSquare(m, n) && InRange(e, n)
    ensures IsSquare(r, n)
    ensures forall i, j :: 0 <= i < n && 0 <= j < n ==>
              r[i][j] == (if Connects(e, i, j) then Some(ClampWeight(e.weight)) else m[i][j])
  {
    var a := Some(ClampWeight(e.weight));
    var m1 := m[e.source := m[e.source][e.target := a]];
    m1[e.target := m1[e.target][e.source := a]]
  }

  /** The constructor loop over `graph.edges`, in order. */
  function Fill(n: nat, edges: seq<Edge>): (m: Matrix)
    requires forall k :: 0 <= k < |edges| ==> InRange(edges[k], n)
    ensures IsSquare(m, n)
    decreases |edges|
  {
    if |edges| == 0 then Empty(n)
    else Connect(Fill(n, edges[..|edges| - 1]), n, edges[|edges| - 1])
  }

  /** Reference definition: the position of the last edge joining `i` and `j`. */
  function LastLink(edges: seq<Edge>, i: int, j: int): (k: Option<nat>)
    ensures k.Some? ==> k.value < |edges| && Connects(edges[k.value], i, j)
    ensures k.Some? ==> forall l :: k.value < l < |edges| ==> !Connects(edges[l], i, j)
    ensures k.None? ==> forall l :: 0 <= l < |edges| ==> !Connects(edges[l], i, j)
    decreases |edges|
  {
    if |edges| == 0 then None
    else if Connects(edges[|edges| - 1], i, j) then Some(|edges| - 1)
    else
      var k := LastLink(edges[..|edges| - 1], i, j);
      assert forall l :: 0 <= l < |edges| - 1 ==> edges[..|edges| - 1][l] == edges[l];
      k
  }

  /** The first edge with an endpoint outside `[0, n)`, the one whose write throws. */
  function FirstOutOfRange(edges: seq<Edge>, n: nat): (k: Option<nat>)
    ensures k.None? <==> forall l :: 0 <= l < |edges| ==> InRange(edges[l], n)
    ensures k.Some? ==> k.value < |edges| && !InRange(edges[k.value], n)
    ensures k.Some? ==> forall l :: 0 <= l < k.value ==> InRange(edges[l], n)
    decreases |edges|
  {
    if |edges| == 0 then None
    else if !InRange(edges[0], n) then Some(0)
    else
      match FirstOutOfRange(edges[1..], n)
      case None => None
      case Some(k) => Some(k + 1)
  }

  /** The adjacency table of the constructor, or the error its first bad edge raises. */
  function BuildAdjacency(n: nat, edges: seq<Edge>): (r: Result<Matrix, BuildError>)
    ensures r.Ok? <==> forall k :: 0 <= k < |edges| ==> InRange(edges[k], n)
    ensures r.Ok? ==> IsSquare(r.value, n)
    ensures r.Err? ==> r.error.edge < |edges| && !InRange(edges[r.error.edge], n)
    ensures r.Err? ==> forall l :: 0 <= l < r.error.edge ==> InRange(edges[l], n)
  {
    match FirstOutOfRange(edges, n)
    case Some(k) => Err(EndpointOutOfRange(k))
    case None => Ok(Fill(n, edges))
  }

  /** The value the last edge joining `i` and `j` leaves in the table. */
  function LinkWeight(edges: seq<Edge>, i: int, j: int): Option<real> {
    match LastLink(edges, i, j)
    case None => None
    case Some(k) => Some(ClampWeight(edges[k].weight))
  }

  lemma {:induction false} FillLastWins(n: nat, edges: seq<Edge>, i: nat, j: nat)
    requires forall k :: 0 <= k < |edges| ==> InRange(edges[k], n)
    requires i < n && j < n
    ensures Fill(n, edges)[i][j] == LinkWeight(edges, i, j)
    decreases |edges|
  {
    if |edges| > 0 {
      var init := edges[..|edges| - 1];
      FillLastWins(n, init, i, j);
      if !Connects(edges[|edges| - 1], i, j) {
        assert LastLink(edges, i, j) == LastLink(init, i, j);
      }
    }
  }

  /**
   * Entry `(i, j)` holds the clamped weight of the last edge joining `i` and `j`
   * in either direction, and is empty when no edge joins them.
   */
  lemma AdjacencyEntry(n: nat, edges: seq<Edge>, i: nat, j: nat)
    requires BuildAdjacency(n, edges).Ok? && i < n && j < n
    ensures BuildAdjacency(n, edges).value[i][j] == LinkWeight(edges, i, j)
  {
    FillLastWins(n, edges, i, j);
  }

  lemma {:induction false} LastLinkSymmetric(edges: seq<Edge>, i: int, j: int)
    ensures LastLink(edges, i, j) == LastLink(edges, j, i)
    decreases |edges|
  {
    if |edges| > 0 {
      LastLinkSymmetric(edges[..|edges| - 1], i, j);
    }
  }

  /** `adj[s][t]` and `adj[t][s]` are always the same entry, and every weight is non-negative. */
  lemma AdjacencySymmetric(n: nat, edges: seq<Edge>, i: nat, j: nat)
    requires BuildAdjacency(n, edges).Ok? && i < n && j < n
    ensures BuildAdjacency(n, edges).value[i][j] == BuildAdjacency(n, edges).value[j][i]
    ensures BuildAdjacency(n, edges).value[i][j].Some? ==> BuildAdjacency(n, edges).value[i][j].value >= 0.0
  {
    AdjacencyEntry(n, edges, i, j);
    AdjacencyEntry(n, edges, j, i);
    LastLinkSymmetric(edges, i, j);
  }

  /** `edge != undefined ? edge.weight : 0`. */
  function EntryWeight(a: Option<real>): real {
    if a.Some? then a.value else 0.0
  }

  /** One slot `k = i * n + j` of the weights array. */
  function WeightSlot(m: Matrix, n: nat, k: nat): real
    requires IsSquare(m, n) && k < n * n
  {
    var i, j := k / n, k % n;
    TextureLayout.RowOfIndex(k, n);
    if i == j then 0.0 else EntryWeight(m[i][j])
  }

  /** The flat `weights` array, `weights[i * n + j]` for `i != j` and 0 on the diagonal. */
  function Weights(m: Matrix, n: nat): (w: seq<real>)
    requires IsSquare(m, n)
    ensures |w| == n * n
  {
    seq(n * n, k requires 0 <= k < n * n => WeightSlot(m, n, k))
  }

  lemma WeightsAt(m: Matrix, n: nat, i: nat, j: nat)
    requires IsSquare(m, n) && i < n && j < n
    ensures i * n + j < n * n
    ensures Weights(m, n)[i * n + j] == if i == j then 0.0 else EntryWeight(m[i][j])
  {
    TextureLayout.RowMajorBound(i, j, n, n);
    TextureLayout.RowMajorInverse(i, j, n);
  }

  /**
   * `weights[i * n + j]` is the clamped weight of the last edge joining `i` and `j`,
   * 0 when none does, and 0 on the diagonal even for a self-loop; hence the matrix
   * is symmetric and non-negative.
   */
  lemma WeightMatrix(n: nat, edges: seq<Edge>, i: nat, j: nat)
    requires BuildAdjacency(n, edges).Ok? && i < n && j < n
    ensures i * n + j < n * n && j * n + i < n * n
    ensures Weights(BuildAdjacency(n, edges).value, n)[i * n + j]
            == if i == j then 0.0 else EntryWeight(LinkWeight(edges, i, j))
    ensures Weights(BuildAdjacency(n, edges).value, n)[i * n + j]
            == Weights(BuildAdjacency(n, edges).value, n)[j * n + i]
    ensures Weights(BuildAdjacency(n, edges).value, n)[i * n + j] >= 0.0
  {
    var m := BuildAdjacency(n, edges).value;
    WeightsAt(m, n, i, j);
    WeightsAt(m, n, j, i);
    AdjacencyEntry(n, edges, i, j);
    AdjacencySymmetric(n, edges, i, j);
  }
}
