/**
 * The application's graph preparation: the "important neighbours" filter,
 * the initial 2D placement, and the mapping from the loaded graph's nodes
 * and edges to the renderer's graph (edge endpoints by position in the node
 * list, edge width and opacity from the weight). The data loading and the
 * graph library are not modelled: its nodes and edges come in as lists.
 */
module App {
  import opened Wrappers
  import opened Vectors
  import LatticeMesh
  import Adjacency
  import GraphComponent

  // ---------------------------------------------------------------------
  // importantNeighbors

  /** `reduce` without an initial value on an empty array throws. */
  datatype ReduceError = EmptyReduce

  /** The left fold `(cur, v) => v > cur ? v : cur`, seeded with the first weight. */
  function MaxWeight(ws: seq<real>): (m: real)
    requires |ws| > 0
    ensures m in ws && forall k :: 0 <= k < |ws| ==> ws[k] <= m
    decreases |ws|
  {
    if |ws| == 1 then ws[0]
    else
      var cur := MaxWeight(ws[..|ws| - 1]);
      assert forall k :: 0 <= k < |ws| - 1 ==> ws[..|ws| - 1][k] == ws[k];
      if ws[|ws| - 1] > cur then ws[|ws| - 1] else cur
  }

  /** The fold `(cur, v) => v + cur` from 0. */
  function WeightSum(ws: seq<real>): real
    decreases |ws|
  {
    if |ws| == 0 then 0.0 else WeightSum(ws[..|ws| - 1]) + ws[|ws| - 1]
  }

  /** The weights of the links, in order. */
  function Weights(links: seq<(string, real)>): (ws: seq<real>)
    ensures |ws| == |links| && forall k :: 0 <= k < |links| ==> ws[k] == links[k].1
  {
    seq(|links|, k requires 0 <= k < |links| => links[k].1)
  }

  /**
   * `w > (avg + max * importance) / (1 + importance)`. At importance -1 the
   * division is by zero: the numerator `avg - max` is negative (threshold
   * minus infinity, every weight passes) or zero (NaN, none passes).
   */
  predicate AboveThreshold(w: real, avg: real, max: real, importance: real) {
    if 1.0 + importance != 0.0 then w > (avg + max * importance) / (1.0 + importance)
    else avg + max * importance < 0.0
  }

  /** Link `k` passes the threshold. */
  predicate Passes(links: seq<(string, real)>, k: int, avg: real, max: real, importance: real) {
    0 <= k < |links| && AboveThreshold(links[k].1, avg, max, importance)
  }

  /** The neighbours whose link passes the threshold, in order. */
  function Keep(links: seq<(string, real)>, avg: real, max: real, importance: real): (r: seq<string>)
    ensures forall x :: x in r ==> exists k :: Passes(links, k, avg, max, importance) && links[k].0 == x
    ensures forall k :: Passes(links, k, avg, max, importance) ==> links[k].0 in r
    ensures |r| <= |links|
    ensures (forall k :: !Passes(links, k, avg, max, importance)) ==> r == []
    decreases |links|
  {
    if |links| == 0 then []
    else
      var rest := Keep(links[1..], avg, max, importance);
      assert forall k :: 1 <= k < |links| ==> links[1..][k - 1] == links[k];
      assert forall k :: Passes(links[1..], k, avg, max, importance) ==> Passes(links, k + 1, avg, max, importance);
      if AboveThreshold(links[0].1, avg, max, importance) then [links[0].0] + rest else rest
  }

  /**
   * `filter` keeps order and multiplicity: the kept names of two runs of
   * links are those of the first run followed by those of the second.
   */
  lemma {:induction false} KeepIsFilter(a: seq<(string, real)>, b: seq<(string, real)>, avg: real, max: real, importance: real)
    ensures Keep(a + b, avg, max, importance) == Keep(a, avg, max, importance) + Keep(b, avg, max, importance)
    decreases |a|
  {
    if |a| == 0 {
      assert a + b == b;
    } else {
      var ab := a + b;
      assert ab[0] == a[0];
      assert ab[1..] == a[1..] + b;
      KeepIsFilter(a[1..], b, avg, max, importance);
      var rest := Keep(a[1..], avg, max, importance);
      var tail := Keep(b, avg, max, importance);
      assert Keep(ab, avg, max, importance)
             == (if AboveThreshold(a[0].1, avg, max, importance) then [a[0].0] else []) + (rest + tail);
    }
  }

  /** A single link contributes its name exactly when it passes. */
  lemma KeepOne(l: (string, real), avg: real, max: real, importance: real)
    ensures Keep([l], avg, max, importance) == if AboveThreshold(l.1, avg, max, importance) then [l.0] else []
  {
    assert [l][1..] == [];
  }

  /** The weights' average, `sum / length`. */
  function Average(ws: seq<real>): real
    requires |ws| > 0
  {
    WeightSum(ws) / (|ws| as real)
  }

  /**
   * `importantNeighbors(graph, n, importance)` over the node's links as
   * (neighbour, weight) pairs, one per neighbour: the neighbours whose weight
   * is strictly above the threshold between the average and the maximum.
   * A node without links throws in the first `reduce`.
   */
  function ImportantNeighbors(links: seq<(string, real)>, importance: real): (r: Result<seq<string>, ReduceError>)
    ensures r.Err? <==> |links| == 0
    ensures r.Ok? ==>
              var avg := Average(Weights(links));
              var max := MaxWeight(Weights(links));
              (forall x :: x in r.value ==> exists k :: Passes(links, k, avg, max, importance) && links[k].0 == x)
              && (forall k :: Passes(links, k, avg, max, importance) ==> links[k].0 in r.value)
  {
    if |links| == 0 then Err(EmptyReduce)
    else
      var ws := Weights(links);
      Ok(Keep(links, Average(ws), MaxWeight(ws), importance))
  }

  lemma {:induction false} SumAtMost(ws: seq<real>, m: real)
    requires forall k :: 0 <= k < |ws| ==> ws[k] <= m
    ensures WeightSum(ws) <= (|ws| as real) * m
    decreases |ws|
  {
    if |ws| > 0 {
      SumAtMost(ws[..|ws| - 1], m);
    }
  }

  lemma {:induction false} SumOfEqual(ws: seq<real>, w: real)
    requires forall k :: 0 <= k < |ws| ==> ws[k] == w
    ensures WeightSum(ws) == (|ws| as real) * w
    decreases |ws|
  {
    if |ws| > 0 {
      SumOfEqual(ws[..|ws| - 1], w);
    }
  }

  lemma QuotientAtMost(a: real, n: real, m: real)
    requires n > 0.0 && a <= n * m
    ensures a / n <= m
  {
    var q := a / n;
    assert q * n == a;
  }

  lemma QuotientBelow(a: real, n: real, m: real)
    requires n > 0.0 && a < n * m
    ensures a / n < m
  {
    var q := a / n;
    assert q * n == a;
  }

  /** One weight strictly below the bound makes the sum fall strictly short. */
  lemma {:induction false} SumBelow(ws: seq<real>, m: real, j: nat)
    requires j < |ws| && ws[j] < m && forall k :: 0 <= k < |ws| ==> ws[k] <= m
    ensures WeightSum(ws) < (|ws| as real) * m
    decreases |ws|
  {
    var init := ws[..|ws| - 1];
    assert forall k :: 0 <= k < |init| ==> init[k] == ws[k];
    if j == |ws| - 1 {
      SumAtMost(init, m);
    } else {
      SumBelow(init, m, j);
    }
  }

  lemma AverageBelow(ws: seq<real>, m: real, j: nat)
    requires j < |ws| && ws[j] < m && forall k :: 0 <= k < |ws| ==> ws[k] <= m
    ensures Average(ws) < m
  {
    SumBelow(ws, m, j);
    QuotientBelow(WeightSum(ws), |ws| as real, m);
  }

  /** The average reaches the maximum exactly when every weight equals the maximum. */
  lemma AverageIsMaxIffAllEqual(ws: seq<real>)
    requires |ws| > 0
    ensures Average(ws) == MaxWeight(ws) <==> forall k :: 0 <= k < |ws| ==> ws[k] == MaxWeight(ws)
  {
    var m := MaxWeight(ws);
    if forall k :: 0 <= k < |ws| ==> ws[k] == m {
      AverageOfEqual(ws, m);
    } else {
      var j :| 0 <= j < |ws| && ws[j] != m;
      AverageBelow(ws, m, j);
    }
  }

  /** The average never exceeds the maximum. */
  lemma AverageAtMostMax(ws: seq<real>)
    requires |ws| > 0
    ensures Average(ws) <= MaxWeight(ws)
  {
    AverageAtMost(ws, MaxWeight(ws));
  }

  lemma AverageAtMost(ws: seq<real>, m: real)
    requires |ws| > 0 && forall k :: 0 <= k < |ws| ==> ws[k] <= m
    ensures Average(ws) <= m
  {
    SumAtMost(ws, m);
    QuotientAtMost(WeightSum(ws), |ws| as real, m);
  }

  /** The average of equal weights is that weight. */
  lemma AverageOfEqual(ws: seq<real>, w: real)
    requires |ws| > 0 && forall k :: 0 <= k < |ws| ==> ws[k] == w
    ensures Average(ws) == w
  {
    SumOfEqual(ws, w);
    QuotientOfProduct(|ws| as real, w);
  }

  lemma QuotientOfProduct(n: real, w: real)
    requires n > 0.0
    ensures (n * w) / n == w
  {
  }

  /** For `lo <= hi` and a non-negative importance, the threshold lies between them. */
  lemma ThresholdBetween(lo: real, hi: real, importance: real)
    requires lo <= hi && importance >= 0.0
    ensures lo <= (lo + hi * importance) / (1.0 + importance) <= hi
  {
    var d := 1.0 + importance;
    assert lo * d <= lo + hi * importance <= hi * d;
    assert (lo * d) / d == lo && (hi * d) / d == hi;
  }

  /** Above the threshold exactly when above its bounds: with `lo < hi`, `hi` itself passes. */
  lemma MaxPassesIffAboveAverage(lo: real, hi: real, importance: real)
    requires lo <= hi && importance >= 0.0
    ensures hi > (lo + hi * importance) / (1.0 + importance) <==> hi > lo
  {
    var d := 1.0 + importance;
    var t := (lo + hi * importance) / d;
    assert t * d == lo + hi * importance;
    if hi > lo {
      assert hi * d > t * d;
    } else {
      assert t == hi;
    }
  }

  /**
   * For a non-negative importance the threshold lies between the average and
   * the maximum weight; so every kept neighbour's weight is above the average.
   */
  lemma KeptAboveAverage(links: seq<(string, real)>, importance: real, k: nat)
    requires |links| > 0 && importance >= 0.0 && k < |links|
    ensures var ws := Weights(links);
            AboveThreshold(links[k].1, Average(ws), MaxWeight(ws), importance) ==> links[k].1 > Average(ws)
  {
    var ws := Weights(links);
    var avg := Average(ws);
    var max := MaxWeight(ws);
    AverageAtMostMax(ws);
    ThresholdBetween(avg, max, importance);
    var t := (avg + max * importance) / (1.0 + importance);
    assert avg <= t;
    assert AboveThreshold(links[k].1, avg, max, importance) ==> links[k].1 > t;
  }

  /** When every link weighs the same, no neighbour is important. */
  lemma EqualWeightsKeepNone(links: seq<(string, real)>, importance: real, w: real)
    requires |links| > 0 && importance >= 0.0
    requires forall k :: 0 <= k < |links| ==> links[k].1 == w
    ensures ImportantNeighbors(links, importance) == Ok([])
  {
    var ws := Weights(links);
    AverageOfEqual(ws, w);
    assert MaxWeight(ws) == w;
    ThresholdBetween(w, w, importance);
    assert forall k :: !Passes(links, k, w, w, importance);
    var r := ImportantNeighbors(links, importance).value;
    assert r == Keep(links, w, w, importance);
  }

  /**
   * A heaviest neighbour is kept exactly when the heaviest weight is above the
   * average, that is, exactly when the links do not all weigh the same.
   */
  lemma HeaviestKeptIffAboveAverage(links: seq<(string, real)>, importance: real, k: nat)
    requires importance >= 0.0 && k < |links| && links[k].1 == MaxWeight(Weights(links))
    ensures var ws := Weights(links);
            AboveThreshold(links[k].1, Average(ws), MaxWeight(ws), importance) <==> MaxWeight(ws) > Average(ws)
    ensures var ws := Weights(links);
            AboveThreshold(links[k].1, Average(ws), MaxWeight(ws), importance)
            <==> exists j :: 0 <= j < |links| && links[j].1 != links[k].1
  {
    var ws := Weights(links);
    AverageAtMostMax(ws);
    AverageIsMaxIffAllEqual(ws);
    MaxPassesIffAboveAverage(Average(ws), MaxWeight(ws), importance);
  }

  // ---------------------------------------------------------------------
  // the renderer's graph

  /** `x*100*2.5-160`, `y*100*2.5-65`: the initial 2D placement. */
  function Place(x: real, y: real): (r: (real, real))
    ensures r.0 == x * 250.0 - 160.0 && r.1 == y * 250.0 - 65.0
  {
    (x * 100.0 * 2.5 - 160.0, y * 100.0 * 2.5 - 65.0)
  }

  /** The placement is invertible and keeps the order of both coordinates. */
  lemma PlaceInvertible(x: real, y: real, x2: real, y2: real)
    ensures var p := Place(x, y);
            (p.0 + 160.0) / 250.0 == x && (p.1 + 65.0) / 250.0 == y
    ensures (x <= x2 <==> Place(x, y).0 <= Place(x2, y2).0) && (y <= y2 <==> Place(x, y).1 <= Place(x2, y2).1)
  {
  }

  /** `artistgraph.nodes().indexOf(key)`: the FIRST position holding the key, or -1. */
  function FirstIndex(keys: seq<string>, k: string): (r: int)
    ensures -1 <= r < |keys|
    ensures r == -1 <==> k !in keys
    ensures r >= 0 ==> keys[r] == k && forall j :: 0 <= j < r ==> keys[j] != k
    decreases |keys|
  {
    if |keys| == 0 then -1
    else if keys[0] == k then 0
    else
      var r := FirstIndex(keys[1..], k);
      if r == -1 then -1 else r + 1
  }

  /** With unique keys, the first position of a key is the position the mesh's key cache answers. */
  lemma FirstIndexIsMeshIndex(keys: seq<string>, k: string)
    requires LatticeMesh.Distinct(keys)
    ensures FirstIndex(keys, k) == LatticeMesh.IndexOf(keys, k)
  {
    var f := FirstIndex(keys, k);
    if f >= 0 {
      LatticeMesh.IndexOfDistinct(keys, f);
    }
  }

  /** A loaded node: its key, layout attributes, colour channels 0..255 and eigencentrality. */
  datatype ArtistNode = ArtistNode(key: string, x: real, y: real, r: real, g: real, b: real, centrality: real)

  /** A loaded edge: its key, endpoint keys, and the weight attribute if present. */
  datatype ArtistEdge = ArtistEdge(key: string, source: string, target: string, weight: Option<real>)

  /** `weight || 1.0`: a missing or zero weight counts as 1. */
  function WeightOrOne(w: Option<real>): (r: real)
    ensures r != 0.0
    ensures w.Some? && w.value != 0.0 ==> r == w.value
  {
    if w.Some? && w.value != 0.0 then w.value else 1.0
  }

  /** The opacity buckets: below 6, below 10, and the rest. */
  function EdgeOpacity(w: Option<real>): (o: real)
    ensures o == 0.1 || o == 0.3 || o == 1.0
    ensures o == 0.1 <==> WeightOrOne(w) < 6.0
    ensures o == 1.0 <==> WeightOrOne(w) >= 10.0
  {
    var weight := WeightOrOne(w);
    if weight < 6.0 then 0.1 else if weight < 10.0 then 0.3 else 1.0
  }

  /** Heavier edges are never fainter; a missing weight looks like weight 1. */
  lemma EdgeOpacityMonotone(w1: real, w2: real)
    requires w1 <= w2
    ensures EdgeOpacity(Some(w1)) <= EdgeOpacity(Some(w2))
    ensures EdgeOpacity(None) == EdgeOpacity(Some(0.0)) == EdgeOpacity(Some(1.0)) == 0.1
  {
  }

  /**
   * `1 + weight*0.03*devicePixelRatio || 1.0`: the `||` applies to the whole
   * sum, so it only catches a missing weight (NaN) or a sum of exactly 0.
   */
  function EdgeWidth(w: Option<real>, pixelRatio: real): (r: real)
    ensures r != 0.0
    ensures w.None? ==> r == 1.0
  {
    match w
    case None => 1.0
    case Some(weight) =>
      var v := 1.0 + weight * 0.03 * pixelRatio;
      if v == 0.0 then 1.0 else v
  }

  /** For non-negative weights and pixel ratio the width is at least 1 and grows with the weight. */
  lemma EdgeWidthGrows(w1: real, w2: real, pixelRatio: real)
    requires 0.0 <= w1 <= w2 && pixelRatio >= 0.0
    ensures 1.0 <= EdgeWidth(Some(w1), pixelRatio) <= EdgeWidth(Some(w2), pixelRatio)
  {
    assert w1 * pixelRatio <= w2 * pixelRatio;
  }

  /** The keys of the loaded nodes, in order. */
  function Keys(nodes: seq<ArtistNode>): (ks: seq<string>)
    ensures |ks| == |nodes| && forall i :: 0 <= i < |nodes| ==> ks[i] == nodes[i].key
  {
    seq(|nodes|, i requires 0 <= i < |nodes| => nodes[i].key)
  }

  /**
   * A node of the renderer's graph: the placed position with the given
   * random depth, the colour scaled to 0..1, size `(2 + c*100) * ratio`,
   * and no flag set.
   */
  function BuildNode(n: ArtistNode, z: real, pixelRatio: real): (r: LatticeMesh.Node)
    ensures r.key == n.key && r.pos == Vec3(Place(n.x, n.y).0, Place(n.x, n.y).1, z)
    ensures r.colour == Vec3(n.r / 255.0, n.g / 255.0, n.b / 255.0)
    ensures r.size == (2.0 + n.centrality * 100.0) * pixelRatio
    ensures !r.hovered && !r.highlighted && !r.selected
  {
    var p := Place(n.x, n.y);
    LatticeMesh.Node(n.key, Vec3(p.0, p.1, z), Vec3(n.r / 255.0, n.g / 255.0, n.b / 255.0),
                     (2.0 + n.centrality * 100.0) * pixelRatio, false, false, false)
  }

  /**
   * For a positive pixel ratio a node's size, which becomes its simulation
   * mass, is positive for non-negative centrality and grows with it.
   */
  lemma SizeGrowsWithCentrality(n1: ArtistNode, n2: ArtistNode, z1: real, z2: real, pixelRatio: real)
    requires pixelRatio > 0.0 && 0.0 <= n1.centrality < n2.centrality
    ensures 0.0 < BuildNode(n1, z1, pixelRatio).size < BuildNode(n2, z2, pixelRatio).size
    ensures GraphComponent.SimulationNodes([BuildNode(n1, z1, pixelRatio)])[0].mass == BuildNode(n1, z1, pixelRatio).size
  {
    var a := 2.0 + n1.centrality * 100.0;
    var b := 2.0 + n2.centrality * 100.0;
    assert 0.0 < a < b;
    assert a * pixelRatio < b * pixelRatio;
  }

  /** An edge of the renderer's graph: endpoints by first position in the node list. */
  function BuildEdge(e: ArtistEdge, keys: seq<string>, pixelRatio: real): (r: LatticeMesh.Edge)
    ensures r.key == e.key
    ensures r.source == FirstIndex(keys, e.source) && r.target == FirstIndex(keys, e.target)
    ensures r.width == EdgeWidth(e.weight, pixelRatio) && r.opacity == EdgeOpacity(e.weight)
  {
    LatticeMesh.Edge(e.key, FirstIndex(keys, e.source), FirstIndex(keys, e.target),
                     EdgeWidth(e.weight, pixelRatio), EdgeOpacity(e.weight))
  }

  /** The renderer's graph built from the loaded one; `zs` are the random depths. */
  function BuildGraph(nodes: seq<ArtistNode>, edges: seq<ArtistEdge>, zs: seq<real>, pixelRatio: real)
    : (g: LatticeMesh.Graph)
    requires |zs| == |nodes|
    ensures |g.nodes| == |nodes| && |g.edges| == |edges|
    ensures forall i :: 0 <= i < |nodes| ==> g.nodes[i] == BuildNode(nodes[i], zs[i], pixelRatio)
    ensures forall k :: 0 <= k < |edges| ==> g.edges[k] == BuildEdge(edges[k], Keys(nodes), pixelRatio)
  {
    LatticeMesh.Graph(
      seq(|nodes|, i requires 0 <= i < |nodes| => BuildNode(nodes[i], zs[i], pixelRatio)),
      seq(|edges|, k requires 0 <= k < |edges| => BuildEdge(edges[k], Keys(nodes), pixelRatio)))
  }

  /**
   * Every built edge joins the nodes holding its endpoint keys; an edge whose
   * endpoint key is not a node gets -1, on which the graph component's
   * constructor throws.
   */
  lemma BuiltEdgesJoinTheirKeys(nodes: seq<ArtistNode>, edges: seq<ArtistEdge>, zs: seq<real>,
                                pixelRatio: real, k: nat)
    requires |zs| == |nodes| && k < |edges|
    ensures var g := BuildGraph(nodes, edges, zs, pixelRatio);
            var e := GraphComponent.SimulationEdges(g.edges)[k];
            (Adjacency.InRange(e, |g.nodes|) <==> edges[k].source in Keys(nodes) && edges[k].target in Keys(nodes))
            && (Adjacency.InRange(e, |g.nodes|) ==>
                  g.nodes[e.source].key == edges[k].source && g.nodes[e.target].key == edges[k].target)
  {
  }

  /** The graph component accepts the built graph exactly when every edge's endpoint keys are node keys. */
  lemma BuiltGraphCreates(nodes: seq<ArtistNode>, edges: seq<ArtistEdge>, zs: seq<real>,
                          pixelRatio: real, fr: real -> real)
    requires |zs| == |nodes|
    ensures GraphComponent.Create(BuildGraph(nodes, edges, zs, pixelRatio), fr).Ok?
            <==> forall k :: 0 <= k < |edges| ==> edges[k].source in Keys(nodes) && edges[k].target in Keys(nodes)
  {
    var g := BuildGraph(nodes, edges, zs, pixelRatio);
    forall k | 0 <= k < |edges|
      ensures GraphComponent.Joins(g, k) <==> edges[k].source in Keys(nodes) && edges[k].target in Keys(nodes)
    {
      BuiltEdgesJoinTheirKeys(nodes, edges, zs, pixelRatio, k);
    }
  }
}
