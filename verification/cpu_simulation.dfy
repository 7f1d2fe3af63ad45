/**
 * `CPUSimulation`: a dense force engine over all ordered node pairs. Each step
 * computes a spring vector per ordered pair (attraction along the weight
 * matrix plus inverse-square repulsion), sums each row into the node's force,
 * adds gravity, integrates, and copies positions back into the graph.
 * The interleaved `Float32Array`s are modelled as sequences of vectors
 * (see `Vectors.Flatten` for the layout correspondence).
 */
module CpuSimulation {
  import opened Wrappers
  import opened Vectors
  import opened Physics
  import Adjacency
  import TextureLayout

  /** A graph node: its position, and whatever else the caller keeps on it. */
  datatype GraphNode<A> = GraphNode(pos: Vec3, rest: A)

  datatype Graph<A> = Graph(nodes: seq<GraphNode<A>>, edges: seq<Adjacency.Edge>)

  datatype Engine<A> = Engine(
    graph: Graph<A>,
    coeff: Coefficients,
    weights: seq<real>,
    positions: seq<Vec3>,
    velocities: seq<Vec3>)
  {
    function Count(): nat {
      |graph.nodes|
    }

    predicate Valid() {
      |weights| == Count() * Count() && |positions| == Count() && |velocities| == Count()
    }
  }

  function PositionsOf<A>(nodes: seq<GraphNode<A>>): (ps: seq<Vec3>)
    ensures |ps| == |nodes|
    ensures forall i :: 0 <= i < |nodes| ==> ps[i] == nodes[i].pos
  {
    seq(|nodes|, i requires 0 <= i < |nodes| => nodes[i].pos)
  }

  /**
   * The constructor: adjacency and weight matrix from the edges, positions
   * from the nodes, zero velocities; it throws on an edge whose endpoint is
   * not a node.
   */
  function Create<A>(graph: Graph<A>, coeff: Coefficients): (r: Result<Engine<A>, Adjacency.BuildError>)
    ensures r.Ok? <==> Adjacency.BuildAdjacency(|graph.nodes|, graph.edges).Ok?
    ensures r.Ok? ==> r.value.Valid() && r.value.graph == graph && r.value.coeff == coeff
    ensures r.Ok? ==> r.value.weights
                      == Adjacency.Weights(Adjacency.BuildAdjacency(|graph.nodes|, graph.edges).value, |graph.nodes|)
    ensures r.Ok? ==> forall i :: 0 <= i < |graph.nodes| ==>
                        r.value.positions[i] == graph.nodes[i].pos && r.value.velocities[i] == Zero
  {
    var n := |graph.nodes|;
    match Adjacency.BuildAdjacency(n, graph.edges)
    case Err(e) => Err(e)
    case Ok(adj) =>
      Ok(Engine(graph, coeff, Adjacency.Weights(adj, n), PositionsOf(graph.nodes), seq(n, _ => Zero)))
  }

  /** Weight of the ordered pair `(i, j)` in the flat matrix. */
  function WeightOf(weights: seq<real>, n: nat, i: nat, j: nat): real
    requires |weights| == n * n && i < n && j < n
  {
    TextureLayout.RowMajorBound(i, j, n, n);
    weights[i * n + j]
  }

  /**
   * The spring vector of the ordered pair `(i, j)`, `i != j`: attraction
   * `(pj - pi) * w * attraction` plus repulsion `(pj - pi) * repulsion / |pj - pi|^2`.
   */
  function Spring(ps: seq<Vec3>, weights: seq<real>, c: Coefficients, i: nat, j: nat): Vec3
    requires |weights| == |ps| * |ps| && i < |ps| && j < |ps| && i != j && Separated(ps)
  {
    var d := Sub(ps[j], ps[i]);
    Add(Scale(d, WeightOf(weights, |ps|, i, j) * c.attraction), Scale(d, c.repulsion / DistSq(ps[i], ps[j])))
  }

  /** The `springs` buffer: one vector per ordered pair, the diagonal left at zero. */
  function Springs(ps: seq<Vec3>, weights: seq<real>, c: Coefficients): (m: seq<seq<Vec3>>)
    requires |weights| == |ps| * |ps| && Separated(ps)
    ensures |m| == |ps| && forall i :: 0 <= i < |ps| ==> |m[i]| == |ps|
    ensures forall i :: 0 <= i < |ps| ==> m[i][i] == Zero
    ensures forall i, j :: 0 <= i < |ps| && 0 <= j < |ps| && i != j ==>
              m[i][j] == Spring(ps, weights, c, i, j)
  {
    seq(|ps|, i requires 0 <= i < |ps| =>
      seq(|ps|, j requires 0 <= j < |ps| => if i == j then Zero else Spring(ps, weights, c, i, j)))
  }

  predicate IsSquare(m: seq<seq<Vec3>>, n: nat) {
    |m| == n && forall i :: 0 <= i < n ==> |m[i]| == n
  }

  /** `m[i][j] == -m[j][i]` for every off-diagonal pair. */
  predicate Antisymmetric(m: seq<seq<Vec3>>, n: nat)
    requires IsSquare(m, n)
  {
    forall i, j :: 0 <= i < n && 0 <= j < n && i != j ==> m[i][j] == Neg(m[j][i])
  }

  /** `sum_{i < k} m[i][c]`. */
  function ColSum(m: seq<seq<Vec3>>, n: nat, c: nat, k: nat): Vec3
    requires IsSquare(m, n) && c < n && k <= n
    decreases k
  {
    if k == 0 then Zero else Add(ColSum(m, n, c, k - 1), m[k - 1][c])
  }

  /** `sum_{i < k} RowSum(m[i], i, w)`: the top `k` rows truncated to width `w`. */
  function Block(m: seq<seq<Vec3>>, n: nat, k: nat, w: nat): Vec3
    requires IsSquare(m, n) && k <= n && w <= n
    decreases k
  {
    if k == 0 then Zero else Add(Block(m, n, k - 1, w), RowSum(m[k - 1], k - 1, w))
  }

  /** Widening the first `k` rows by column `w` adds that column's top `k` entries. */
  lemma {:induction false} BlockWiden(m: seq<seq<Vec3>>, n: nat, k: nat, w: nat)
    requires IsSquare(m, n) && k <= w < n
    ensures Block(m, n, k, w + 1) == Add(Block(m, n, k, w), ColSum(m, n, w, k))
    decreases k
  {
    if k > 0 {
      BlockWiden(m, n, k - 1, w);
    }
  }

  /** Row `c` and column `c` of an antisymmetric matrix cancel. */
  lemma {:induction false} CrossCancels(m: seq<seq<Vec3>>, n: nat, c: nat, k: nat)
    requires IsSquare(m, n) && Antisymmetric(m, n) && c < n && k <= c
    ensures Add(ColSum(m, n, c, k), RowSum(m[c], c, k)) == Zero
    decreases k
  {
    if k > 0 {
      CrossCancels(m, n, c, k - 1);
      assert m[k - 1][c] == Neg(m[c][k - 1]);
    }
  }

  /** The off-diagonal entries of an antisymmetric square sum to zero. */
  lemma {:induction false} SquareCancels(m: seq<seq<Vec3>>, n: nat, k: nat)
    requires IsSquare(m, n) && Antisymmetric(m, n) && k <= n
    ensures Block(m, n, k, k) == Zero
    decreases k
  {
    if k > 0 {
      var c := k - 1;
      SquareCancels(m, n, c);
      BlockWiden(m, n, c, c);
      CrossCancels(m, n, c, c);
      assert RowSum(m[c], c, k) == RowSum(m[c], c, c);
    }
  }

  /** With a symmetric weight matrix the spring of `(i, j)` is minus the spring of `(j, i)`. */
  lemma SpringAntisymmetric(ps: seq<Vec3>, weights: seq<real>, c: Coefficients, i: nat, j: nat)
    requires |weights| == |ps| * |ps| && i < |ps| && j < |ps| && i != j && Separated(ps)
    requires WeightOf(weights, |ps|, i, j) == WeightOf(weights, |ps|, j, i)
    ensures Spring(ps, weights, c, i, j) == Neg(Spring(ps, weights, c, j, i))
  {
    var d := Sub(ps[j], ps[i]);
    assert Sub(ps[i], ps[j]) == Neg(d);
    DistSqSymmetric(ps[i], ps[j]);
    ScaleNeg(d, WeightOf(weights, |ps|, i, j) * c.attraction);
    ScaleNeg(d, c.repulsion / DistSq(ps[i], ps[j]));
  }

  /** The spring part of every node's force: row `i` of `springs` without its diagonal. */
  function SpringForces(m: seq<seq<Vec3>>, n: nat): (fs: seq<Vec3>)
    requires IsSquare(m, n)
    ensures |fs| == n
    ensures forall i :: 0 <= i < n ==> fs[i] == RowSum(m[i], i, n)
  {
    seq(n, i requires 0 <= i < n => RowSum(m[i], i, n))
  }

  lemma {:induction false} SumSpringForces(m: seq<seq<Vec3>>, n: nat, k: nat)
    requires IsSquare(m, n) && k <= n
    ensures Sum(SpringForces(m, n)[..k]) == Block(m, n, k, n)
    decreases k
  {
    if k > 0 {
      SumSpringForces(m, n, k - 1);
      assert SpringForces(m, n)[..k][..k - 1] == SpringForces(m, n)[..k - 1];
    }
  }

  /**
   * With a symmetric weight matrix the pairwise forces cancel: summed over all
   * nodes, the spring forces are the zero vector.
   */
  lemma SpringForcesCancel(ps: seq<Vec3>, weights: seq<real>, c: Coefficients)
    requires |weights| == |ps| * |ps| && Separated(ps)
    requires forall i, j :: 0 <= i < |ps| && 0 <= j < |ps| ==>
               WeightOf(weights, |ps|, i, j) == WeightOf(weights, |ps|, j, i)
    ensures Sum(SpringForces(Springs(ps, weights, c), |ps|)) == Zero
  {
    var n := |ps|;
    var m := Springs(ps, weights, c);
    forall i, j | 0 <= i < n && 0 <= j < n && i != j
      ensures m[i][j] == Neg(m[j][i])
    {
      SpringAntisymmetric(ps, weights, c, i, j);
    }
    SumSpringForces(m, n, n);
    assert SpringForces(m, n)[..n] == SpringForces(m, n);
    SquareCancels(m, n, n);
  }

  /** Forces after the reset, spring and gravity loops. */
  function Forces(ps: seq<Vec3>, weights: seq<real>, c: Coefficients): (fs: seq<Vec3>)
    requires |weights| == |ps| * |ps| && Separated(ps)
    ensures |fs| == |ps|
  {
    AddAll(SpringForces(Springs(ps, weights, c), |ps|), Gravities(ps, c.gravity))
  }

  /** The force on node `i` is its spring row sum over `j != i` followed by its gravity. */
  lemma ForceOnNode(ps: seq<Vec3>, weights: seq<real>, c: Coefficients, i: nat)
    requires |weights| == |ps| * |ps| && Separated(ps) && i < |ps|
    ensures Forces(ps, weights, c)[i]
            == Add(RowSum(Springs(ps, weights, c)[i], i, |ps|), Gravity(ps[i], c.gravity))
  {
  }

  /** Positions written back into the graph nodes; nothing else on a node changes. */
  function CopyBack<A>(nodes: seq<GraphNode<A>>, ps: seq<Vec3>): (r: seq<GraphNode<A>>)
    requires |ps| == |nodes|
    ensures |r| == |nodes|
    ensures forall i :: 0 <= i < |nodes| ==> r[i].pos == ps[i] && r[i].rest == nodes[i].rest
  {
    seq(|nodes|, i requires 0 <= i < |nodes| => nodes[i].(pos := ps[i]))
  }

  /**
   * `step()`: springs, forces, then the three integration loops
   * (`velocities += forces`, `velocities *= dampening`, `positions += velocities`),
   * then the copy back into the graph.
   */
  function Step<A>(e: Engine<A>): (r: Engine<A>)
    requires e.Valid() && Separated(e.positions)
    ensures r.Valid() && r.Count() == e.Count()
    ensures r.coeff == e.coeff && r.weights == e.weights && r.graph.edges == e.graph.edges
    ensures forall i :: 0 <= i < e.Count() ==> r.graph.nodes[i].pos == r.positions[i]
    ensures forall i :: 0 <= i < e.Count() ==> r.graph.nodes[i].rest == e.graph.nodes[i].rest
  {
    var fs := Forces(e.positions, e.weights, e.coeff);
    var v1 := AddAll(e.velocities, fs);
    var v2 := ScaleAll(v1, e.coeff.dampening);
    var p := AddAll(e.positions, v2);
    e.(graph := e.graph.(nodes := CopyBack(e.graph.nodes, p)), positions := p, velocities := v2)
  }

  /** The loops of `step` integrate every node by the shared integrator. */
  lemma StepIntegrates<A>(e: Engine<A>, i: nat)
    requires e.Valid() && Separated(e.positions) && i < e.Count()
    ensures State(Step(e).positions[i], Step(e).velocities[i])
            == Integrate(State(e.positions[i], e.velocities[i]),
                         Forces(e.positions, e.weights, e.coeff)[i], e.coeff.dampening)
  {
  }

  /**
   * Momentum balance: with symmetric weights (as `Create` builds them) the
   * springs add nothing to the total velocity, which changes by gravity alone.
   */
  lemma StepMomentum<A>(e: Engine<A>)
    requires e.Valid() && Separated(e.positions)
    requires forall i, j :: 0 <= i < e.Count() && 0 <= j < e.Count() ==>
               WeightOf(e.weights, e.Count(), i, j) == WeightOf(e.weights, e.Count(), j, i)
    ensures Sum(Step(e).velocities)
            == Scale(Add(Sum(e.velocities), Sum(Gravities(e.positions, e.coeff.gravity))), e.coeff.dampening)
  {
    var ps, c := e.positions, e.coeff;
    var sf := SpringForces(Springs(ps, e.weights, c), |ps|);
    var gs := Gravities(ps, c.gravity);
    SpringForcesCancel(ps, e.weights, c);
    SumAddAll(sf, gs);
    SumAddAll(e.velocities, AddAll(sf, gs));
    SumScaleAll(AddAll(e.velocities, AddAll(sf, gs)), c.dampening);
  }

  /** The weights a freshly created engine holds are symmetric. */
  lemma CreatedWeightsSymmetric<A>(graph: Graph<A>, coeff: Coefficients, i: nat, j: nat)
    requires Create(graph, coeff).Ok? && i < |graph.nodes| && j < |graph.nodes|
    ensures WeightOf(Create(graph, coeff).value.weights, |graph.nodes|, i, j)
            == WeightOf(Create(graph, coeff).value.weights, |graph.nodes|, j, i)
    ensures WeightOf(Create(graph, coeff).value.weights, |graph.nodes|, i, i) == 0.0
  {
    Adjacency.WeightMatrix(|graph.nodes|, graph.edges, i, j);
    Adjacency.WeightMatrix(|graph.nodes|, graph.edges, i, i);
  }

  /**
   * A single node at rest, pulled only by gravity, moves to
   * `p * (1 - gravity * dampening)` in one step.
   */
  lemma SingleNodeStep<A>(e: Engine<A>)
    requires e.Valid() && e.Count() == 1 && e.velocities[0] == Zero
    ensures Separated(e.positions)
    ensures Step(e).positions[0] == Scale(e.positions[0], 1.0 - e.coeff.gravity * e.coeff.dampening)
  {
    var ps := e.positions;
    var m := Springs(ps, e.weights, e.coeff);
    assert RowSum(m[0], 0, 1) == Zero;
    assert Forces(ps, e.weights, e.coeff)[0] == Add(Zero, Gravity(ps[0], e.coeff.gravity));
    StepIntegrates(e, 0);
    LoneNodeUnderGravity(ps[0], e.coeff.gravity, e.coeff.dampening);
  }
}
