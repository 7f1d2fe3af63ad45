/**
 * `GPUSimulation`: the force engine as a sequence of per-texel render passes
 * over `nodeColumns x nodeColumns` textures. Texel `t = y * nodeColumns + x`
 * holds node `t`; texels past the last node are padding.
 *
 * The force pass is modelled as written: it iterates over a hard-coded 440
 * partners, looks weights up with a hard-coded row stride of 440, uses literal
 * coefficients, and lets texels at or past 440 keep their gravity term.
 * `TexelForce` takes the bound and the stride as parameters so that the same
 * definition also yields the pass bounded by the real node count.
 */
module GpuSimulation {
  import opened Wrappers
  import opened Vectors
  import opened Physics
  import Adjacency
  import TextureLayout
  import CpuSimulation

  /** The force pass's loop bound and weight row stride, both written as 440. */
  const Bound: nat := 440
  /** The uniforms the force pass is given, whatever the constructor received. */
  const Attraction: real := 0.0005
  const Repulsion: real := -0.15
  const GravityK: real := 0.005
  /** The fade of the velocity copy, `passThrough(..., 0.9)`. */
  const Decay: real := 0.9
  /** Pairs closer than this (squared) are skipped entirely. */
  const NearSq: real := 0.0001

  datatype Gpu = Gpu(
    coeff: Coefficients,
    cols: nat,                // nodeColumns: side of every render target
    edgeCols: nat,            // edgeColumns: side of the weight texture
    weights: seq<real>,       // weightMap texels
    positions: seq<Vec3>,     // currentPositionFbo texels
    velocities: seq<Vec3>)    // currentVelocityFbo texels
  {
    /** Every target has its side's texel count; an empty graph gives 0×0 textures throughout. */
    predicate Valid() {
      (cols == 0 <==> edgeCols == 0)
      && |positions| == cols * cols && |velocities| == cols * cols
      && |weights| == edgeCols * edgeCols
    }
  }

  /** `clamp(w, 0.0, 1.0)`. */
  function Clamp01(w: real): (c: real)
    ensures 0.0 <= c <= 1.0
    ensures 0.0 <= w <= 1.0 ==> c == w
  {
    if w < 0.0 then 0.0 else if w > 1.0 then 1.0 else w
  }

  /**
   * The force accumulated by the fragment of texel `n1` after the first `k`
   * iterations of its loop over `n2`: gravity first, then per partner
   * `force += 1.0/distSq*vector*repulsion` and `force += vector*attraction*clamp(weight)`.
   */
  function Accumulate(ps: seq<Vec3>, ws: seq<real>, cols: nat, edgeCols: nat, stride: nat, n1: nat, k: nat): Vec3
    requires cols >= 1 && edgeCols >= 1 && |ps| == cols * cols && |ws| == edgeCols * edgeCols
    requires n1 < cols * cols
    decreases k
  {
    if k == 0 then Gravity(ps[n1], GravityK)
    else
      var acc := Accumulate(ps, ws, cols, edgeCols, stride, n1, k - 1);
      var n2 := k - 1;
      if n2 == n1 then acc
      else
        Contribute(acc, Sub(TextureLayout.FetchCentre(ps, cols, n2), ps[n1]),
                   TextureLayout.FetchCorner(ws, edgeCols, n1 * stride + n2))
  }

  /**
   * One partner's iteration, given `vector = P2 - pos` and the sampled weight:
   * skipped when `distSq < 0.0001`, else repulsion and then attraction added.
   */
  function Contribute(acc: Vec3, v: Vec3, w: real): Vec3 {
    var distSq := Dot(v, v);
    if distSq < NearSq then acc
    else Add(Add(acc, Scale(Scale(v, 1.0 / distSq), Repulsion)), Scale(Scale(v, Attraction), Clamp01(w)))
  }

  /** Unfolding one iteration: the partner and weight read are the clamped texels. */
  lemma AccumulateStep(ps: seq<Vec3>, ws: seq<real>, cols: nat, edgeCols: nat, stride: nat, n1: nat, k: nat)
    requires cols >= 1 && edgeCols >= 1 && |ps| == cols * cols && |ws| == edgeCols * edgeCols
    requires n1 < cols * cols && k > 0 && k - 1 != n1
    ensures Accumulate(ps, ws, cols, edgeCols, stride, n1, k)
            == Contribute(Accumulate(ps, ws, cols, edgeCols, stride, n1, k - 1),
                          Sub(ps[TextureLayout.ClampedIndex(k - 1, cols)], ps[n1]),
                          ws[TextureLayout.ClampedIndex(n1 * stride + k - 1, edgeCols)])
  {
  }

  /**
   * A partner far enough away, with a weight in `[0, 1]`, adds exactly the CPU
   * engine's spring `vector * (w * attraction) + vector * (repulsion / distSq)`.
   */
  lemma ContributeFar(acc: Vec3, v: Vec3, w: real)
    requires Dot(v, v) >= NearSq && 0.0 <= w <= 1.0
    ensures Contribute(acc, v, w)
            == Add(acc, Add(Scale(v, w * Attraction), Scale(v, Repulsion / Dot(v, v))))
  {
    var d := Dot(v, v);
    ScaleScale(v, 1.0 / d, Repulsion);
    assert 1.0 / d * Repulsion == Repulsion / d;
    ScaleScale(v, Attraction, w);
    assert Attraction * w == w * Attraction;
  }

  /** The fragment of texel `t`: gravity only at or past `bound`, else the loop over `n2 < bound`. */
  function TexelForce(ps: seq<Vec3>, ws: seq<real>, cols: nat, edgeCols: nat, bound: nat, stride: nat, t: nat): (f: Vec3)
    requires cols >= 1 && edgeCols >= 1 && |ps| == cols * cols && |ws| == edgeCols * edgeCols
    requires t < cols * cols
    ensures t >= bound ==> f == Gravity(ps[t], GravityK)
  {
    if t >= bound then Gravity(ps[t], GravityK)
    else Accumulate(ps, ws, cols, edgeCols, stride, t, bound)
  }

  /** The force pass as written: bound and stride 440. */
  function ForcePass(g: Gpu): (fs: seq<Vec3>)
    requires g.Valid()
    ensures |fs| == g.cols * g.cols
    ensures forall t :: 0 <= t < |fs| ==>
              fs[t] == TexelForce(g.positions, g.weights, g.cols, g.edgeCols, Bound, Bound, t)
  {
    seq(g.cols * g.cols, t requires 0 <= t < g.cols * g.cols =>
      TexelForce(g.positions, g.weights, g.cols, g.edgeCols, Bound, Bound, t))
  }

  /**
   * One `compute()`: the force pass into `forceFbo`, `velocity + force` into
   * `newVelocityFbo`, `passThrough(newVelocity, currentVelocity, 0.9)`,
   * `pos + vel` into `newPositionFbo`, `passThrough(newPosition, currentPosition)`.
   */
  function Compute(g: Gpu): (r: Gpu)
    requires g.Valid()
    ensures r.Valid() && r.cols == g.cols && r.edgeCols == g.edgeCols
    ensures r.weights == g.weights && r.coeff == g.coeff
    ensures g.cols == 0 ==> r == g
  {
    var force := ForcePass(g);
    var newVelocity := AddAll(g.velocities, force);
    var velocity := ScaleAll(newVelocity, Decay);
    var newPosition := AddAll(g.positions, velocity);
    var position := ScaleAll(newPosition, 1.0);
    g.(positions := position, velocities := velocity)
  }

  /**
   * The pass sequence integrates every texel exactly like the CPU loops, with
   * dampening fixed at 0.9: `v' = (v + F) * 0.9`, then `p' = p + v'`.
   */
  lemma ComputeIntegrates(g: Gpu, t: nat)
    requires g.Valid() && t < g.cols * g.cols
    ensures State(Compute(g).positions[t], Compute(g).velocities[t])
            == Integrate(State(g.positions[t], g.velocities[t]), ForcePass(g)[t], Decay)
  {
    var p := Add(g.positions[t], Scale(Add(g.velocities[t], ForcePass(g)[t]), Decay));
    assert Scale(p, 1.0) == p;
  }

  /**
   * Texels at or past 440 write `vec4(0)` first but `vec4(force, 1)` last: they
   * keep the gravity term and nothing else; a padding texel at the origin stays there.
   */
  lemma GravityLeak(g: Gpu, t: nat)
    requires g.Valid() && Bound <= t < g.cols * g.cols
    ensures ForcePass(g)[t] == Gravity(g.positions[t], GravityK)
    ensures g.positions[t] == Zero && g.velocities[t] == Zero ==>
              Compute(g).positions[t] == Zero && Compute(g).velocities[t] == Zero
  {
    ComputeIntegrates(g, t);
  }

  /** The constructor's coefficients never reach the passes. */
  lemma CoefficientsIgnored(g: Gpu, c: Coefficients)
    requires g.Valid()
    ensures Compute(g.(coeff := c)) == Compute(g).(coeff := c)
  {
    assert ForcePass(g.(coeff := c)) == ForcePass(g);
  }

  /** The texels of an interleaved RGB float buffer. */
  function Texels(data: seq<real>, count: nat): (ts: seq<Vec3>)
    requires 3 * count <= |data|
    ensures |ts| == count
    ensures forall t :: 0 <= t < count ==> ts[t] == TexelAt(data, t)
  {
    seq(count, t requires 0 <= t < count => TexelAt(data, t))
  }

  /** The position and weight textures are empty together: both exactly when there are no nodes. */
  lemma SidesVanishTogether(n: nat)
    ensures TextureLayout.TextureSide(n, 1) == 0 <==> n == 0
    ensures TextureLayout.TextureSide(n * n, 1) == 0 <==> n == 0
  {
    if n > 0 {
      assert n * n >= n;
    }
  }

  /**
   * The constructor and `initPositions`: the same adjacency and weights as the
   * CPU engine, packed by `createMap` into a luminance texture; node positions
   * packed into an RGB texture and copied into the position target; velocities
   * start at zero.
   */
  function Create<A>(graph: CpuSimulation.Graph<A>, coeff: Coefficients): (r: Result<Gpu, Adjacency.BuildError>)
    ensures r.Ok? <==> Adjacency.BuildAdjacency(|graph.nodes|, graph.edges).Ok?
    ensures r.Ok? ==> r.value.Valid() && r.value.coeff == coeff
    ensures r.Ok? ==> r.value.cols == TextureLayout.TextureSide(|graph.nodes|, 1)
    ensures r.Ok? ==> r.value.edgeCols == TextureLayout.TextureSide(|graph.nodes| * |graph.nodes|, 1)
    ensures r.Ok? && |graph.nodes| == 0 ==> r.value.cols == 0 && r.value.positions == [] && r.value.weights == []
  {
    var n := |graph.nodes|;
    match Adjacency.BuildAdjacency(n, graph.edges)
    case Err(e) => Err(e)
    case Ok(adj) =>
      var weightMap := TextureLayout.CreateMap(Adjacency.Weights(adj, n), 1, 0.0);
      var positionMap := TextureLayout.CreateMap(Flatten(CpuSimulation.PositionsOf(graph.nodes)), 3, 0.0);
      TextureLayout.PositionTextureSide(n);
      SidesVanishTogether(n);
      var cols := positionMap.side;
      Ok(Gpu(coeff, cols, weightMap.side, weightMap.data,
             Texels(positionMap.data, cols * cols), seq(cols * cols, _ => Zero)))
  }

  /**
   * The textures `Create` fills: texel `t` holds node `t`'s position, padding
   * texels sit at the origin, and the weight texels start with the CPU engine's
   * `weights[i * n + j]` followed by zeros.
   */
  lemma CreateLayout<A>(graph: CpuSimulation.Graph<A>, coeff: Coefficients)
    requires Create(graph, coeff).Ok?
    ensures var g := Create(graph, coeff).value;
            var n := |graph.nodes|;
            n <= g.cols * g.cols && n * n <= g.edgeCols * g.edgeCols
            && (forall t :: 0 <= t < n ==> g.positions[t] == graph.nodes[t].pos)
            && (forall t :: n <= t < g.cols * g.cols ==> g.positions[t] == Zero)
            && (forall t :: 0 <= t < g.cols * g.cols ==> g.velocities[t] == Zero)
            && g.weights[..n * n] == CpuSimulation.Create(graph, coeff).value.weights
            && (forall k :: n * n <= k < |g.weights| ==> g.weights[k] == 0.0)
  {
    var n := |graph.nodes|;
    var g := Create(graph, coeff).value;
    var flat := Flatten(CpuSimulation.PositionsOf(graph.nodes));
    var positionMap := TextureLayout.CreateMap(flat, 3, 0.0);
    TextureLayout.PositionTextureSide(n);
    forall t | 0 <= t < g.cols * g.cols
      ensures g.positions[t] == if t < n then graph.nodes[t].pos else Zero
    {
      assert g.positions[t] == TexelAt(positionMap.data, t);
      if t < n {
        assert positionMap.data[3 * t] == flat[3 * t];
        assert positionMap.data[3 * t + 1] == flat[3 * t + 1];
        assert positionMap.data[3 * t + 2] == flat[3 * t + 2];
      }
    }
  }
}

/**
 * The force pass bounded by the real node count, and its agreement with the
 * CPU engine; and the input that separates it from the pass as written.
 */
module GpuCorrection {
  import opened Wrappers
  import opened Vectors
  import opened Physics
  import Adjacency
  import TextureLayout
  import CpuSimulation
  import opened GpuSimulation

  /** The force pass iterating over the `n` real nodes with row stride `n`. */
  function BoundedForcePass(g: Gpu, n: nat): (fs: seq<Vec3>)
    requires g.Valid()
    ensures |fs| == g.cols * g.cols
    ensures forall t :: 0 <= t < |fs| ==> fs[t] == TexelForce(g.positions, g.weights, g.cols, g.edgeCols, n, n, t)
  {
    seq(g.cols * g.cols, t requires 0 <= t < g.cols * g.cols =>
      TexelForce(g.positions, g.weights, g.cols, g.edgeCols, n, n, t))
  }

  /** `compute()` with the bounded force pass and the same four integration passes. */
  function BoundedCompute(g: Gpu, n: nat): (r: Gpu)
    requires g.Valid()
    ensures r.Valid() && r.cols == g.cols && r.edgeCols == g.edgeCols && r.weights == g.weights
    ensures forall t :: 0 <= t < g.cols * g.cols ==>
              State(r.positions[t], r.velocities[t])
              == Integrate(State(g.positions[t], g.velocities[t]), BoundedForcePass(g, n)[t], Decay)
  {
    var force := BoundedForcePass(g, n);
    var velocity := ScaleAll(AddAll(g.velocities, force), Decay);
    var position := ScaleAll(AddAll(g.positions, velocity), 1.0);
    assert forall t :: 0 <= t < g.cols * g.cols ==>
             Scale(AddAll(g.positions, velocity)[t], 1.0) == AddAll(g.positions, velocity)[t];
    g.(positions := position, velocities := velocity)
  }

  /** At 440 nodes the pass as written is the bounded pass. */
  lemma AsWrittenAt440(g: Gpu)
    requires g.Valid()
    ensures ForcePass(g) == BoundedForcePass(g, Bound)
    ensures Compute(g) == BoundedCompute(g, Bound)
  {
    var c := Compute(g);
    var b := BoundedCompute(g, Bound);
    forall t | 0 <= t < g.cols * g.cols
      ensures c.positions[t] == b.positions[t] && c.velocities[t] == b.velocities[t]
    {
      ComputeIntegrates(g, t);
    }
  }

  /** Every two distinct nodes are at least the skip distance apart. */
  predicate Apart(ps: seq<Vec3>) {
    forall i, j :: 0 <= i < |ps| && 0 <= j < |ps| && i != j ==> DistSq(ps[i], ps[j]) >= NearSq
  }

  /** The CPU engine in the configuration the GPU pass hard-codes. */
  predicate LiteralCoefficients(c: Coefficients) {
    c.attraction == Attraction && c.repulsion == Repulsion && c.gravity == GravityK
  }

  /** The GPU textures hold the CPU engine's positions and weights in their prefixes. */
  predicate Mirrors<A>(g: Gpu, e: CpuSimulation.Engine<A>) {
    var n := e.Count();
    g.Valid() && e.Valid()
    && n <= g.cols * g.cols && n * n <= g.edgeCols * g.edgeCols
    && (forall i :: 0 <= i < n ==> g.positions[i] == e.positions[i] && g.velocities[i] == e.velocities[i])
    && (forall k :: 0 <= k < n * n ==> g.weights[k] == e.weights[k])
  }

  /** With mirrored textures, partner `n2`'s iteration reads node `n2` and weight `(t, n2)`. */
  lemma MirroredPartner<A>(g: Gpu, e: CpuSimulation.Engine<A>, t: nat, n2: nat)
    requires Mirrors(g, e) && t < e.Count() && n2 < e.Count() && t != n2
    ensures Accumulate(g.positions, g.weights, g.cols, g.edgeCols, e.Count(), t, n2 + 1)
            == Contribute(Accumulate(g.positions, g.weights, g.cols, g.edgeCols, e.Count(), t, n2),
                          Sub(e.positions[n2], e.positions[t]),
                          CpuSimulation.WeightOf(e.weights, e.Count(), t, n2))
  {
    AccumulateStep(g.positions, g.weights, g.cols, g.edgeCols, e.Count(), t, n2 + 1);
    MirroredReads(g, e, t, n2);
  }

  /** The texel reads of that iteration: node `n2`'s position and the weight of `(t, n2)`. */
  lemma MirroredReads<A>(g: Gpu, e: CpuSimulation.Engine<A>, t: nat, n2: nat)
    requires Mirrors(g, e) && t < e.Count() && n2 < e.Count()
    ensures g.positions[TextureLayout.ClampedIndex(n2, g.cols)] == e.positions[n2]
    ensures g.positions[t] == e.positions[t]
    ensures g.weights[TextureLayout.ClampedIndex(t * e.Count() + n2, g.edgeCols)]
            == CpuSimulation.WeightOf(e.weights, e.Count(), t, n2)
  {
    var n := e.Count();
    assert TextureLayout.ClampedIndex(n2, g.cols) == n2;
    TextureLayout.RowMajorBound(t, n2, n, n);
    var idx := t * n + n2;
    assert idx < g.edgeCols * g.edgeCols;
    assert TextureLayout.ClampedIndex(idx, g.edgeCols) == idx;
  }

  /** Under the literal coefficients a far partner's iteration adds exactly the CPU spring. */
  lemma SpringContribution<A>(e: CpuSimulation.Engine<A>, acc: Vec3, t: nat, n2: nat)
    requires e.Valid() && LiteralCoefficients(e.coeff) && Apart(e.positions)
    requires forall m :: 0 <= m < |e.weights| ==> 0.0 <= e.weights[m] <= 1.0
    requires t < e.Count() && n2 < e.Count() && t != n2
    ensures Separated(e.positions)
    ensures Contribute(acc, Sub(e.positions[n2], e.positions[t]), CpuSimulation.WeightOf(e.weights, e.Count(), t, n2))
            == Add(acc, CpuSimulation.Spring(e.positions, e.weights, e.coeff, t, n2))
  {
    var ps := e.positions;
    var v := Sub(ps[n2], ps[t]);
    var w := CpuSimulation.WeightOf(e.weights, e.Count(), t, n2);
    var d := DistSq(ps[t], ps[n2]);
    assert Dot(v, v) == d;
    var sp := CpuSimulation.Spring(ps, e.weights, e.coeff, t, n2);
    assert sp == Add(Scale(v, w * e.coeff.attraction), Scale(v, e.coeff.repulsion / d));
    assert sp == Add(Scale(v, w * Attraction), Scale(v, Repulsion / d));
    TextureLayout.RowMajorBound(t, n2, e.Count(), e.Count());
    assert w == e.weights[t * e.Count() + n2];
    assert 0.0 <= w <= 1.0;
    assert d >= NearSq;
    ContributeFar(acc, v, w);
  }

  /** The relation between the GPU loop and the CPU row sum after `k` partners. */
  predicate LoopMatches<A>(g: Gpu, e: CpuSimulation.Engine<A>, t: nat, k: nat)
    requires Mirrors(g, e) && Separated(e.positions) && t < e.Count() && k <= e.Count()
  {
    Accumulate(g.positions, g.weights, g.cols, g.edgeCols, e.Count(), t, k)
    == Add(Gravity(e.positions[t], GravityK),
           RowSum(CpuSimulation.Springs(e.positions, e.weights, e.coeff)[t], t, k))
  }

  lemma LoopMatchesStep<A>(g: Gpu, e: CpuSimulation.Engine<A>, t: nat, n2: nat)
    requires Mirrors(g, e) && LiteralCoefficients(e.coeff) && Apart(e.positions)
    requires forall m :: 0 <= m < |e.weights| ==> 0.0 <= e.weights[m] <= 1.0
    requires t < e.Count() && n2 < e.Count()
    requires Separated(e.positions) && LoopMatches(g, e, t, n2)
    ensures LoopMatches(g, e, t, n2 + 1)
  {
    if n2 != t {
      var n := e.Count();
      var ps := e.positions;
      var acc := Accumulate(g.positions, g.weights, g.cols, g.edgeCols, n, t, n2);
      MirroredPartner(g, e, t, n2);
      SpringContribution(e, acc, t, n2);
      var rs := RowSum(CpuSimulation.Springs(ps, e.weights, e.coeff)[t], t, n2);
      AddAssoc(Gravity(ps[t], GravityK), rs, CpuSimulation.Spring(ps, e.weights, e.coeff, t, n2));
    }
  }

  lemma {:induction false} AccumulateMatchesCpu<A>(g: Gpu, e: CpuSimulation.Engine<A>, t: nat, k: nat)
    requires Mirrors(g, e) && LiteralCoefficients(e.coeff) && Apart(e.positions)
    requires forall m :: 0 <= m < |e.weights| ==> 0.0 <= e.weights[m] <= 1.0
    requires t < e.Count() && k <= e.Count()
    ensures Separated(e.positions)
    ensures LoopMatches(g, e, t, k)
    decreases k
  {
    if k > 0 {
      AccumulateMatchesCpu(g, e, t, k - 1);
      LoopMatchesStep(g, e, t, k - 1);
    }
  }

  /**
   * With the hard-coded coefficients, weights in `[0, 1]` and no two nodes
   * nearer than the skip distance, the bounded pass computes for every node
   * the force the CPU engine computes: gravity plus the row sum of springs.
   */
  lemma BoundedForceMatchesCpu<A>(g: Gpu, e: CpuSimulation.Engine<A>, t: nat)
    requires Mirrors(g, e) && LiteralCoefficients(e.coeff) && Apart(e.positions)
    requires forall m :: 0 <= m < |e.weights| ==> 0.0 <= e.weights[m] <= 1.0
    requires t < e.Count()
    ensures Separated(e.positions)
    ensures BoundedForcePass(g, e.Count())[t] == CpuSimulation.Forces(e.positions, e.weights, e.coeff)[t]
  {
    AccumulateMatchesCpu(g, e, t, e.Count());
  }

  /** One bounded `compute()` moves node `t` exactly as one CPU `step()` with dampening 0.9. */
  lemma BoundedComputeNode<A>(g: Gpu, e: CpuSimulation.Engine<A>, t: nat)
    requires Mirrors(g, e) && LiteralCoefficients(e.coeff) && e.coeff.dampening == Decay && Apart(e.positions)
    requires forall m :: 0 <= m < |e.weights| ==> 0.0 <= e.weights[m] <= 1.0
    requires t < e.Count()
    ensures Separated(e.positions)
    ensures BoundedCompute(g, e.Count()).positions[t] == CpuSimulation.Step(e).positions[t]
    ensures BoundedCompute(g, e.Count()).velocities[t] == CpuSimulation.Step(e).velocities[t]
  {
    BoundedForceMatchesCpu(g, e, t);
    CpuSimulation.StepIntegrates(e, t);
    assert g.positions[t] == e.positions[t] && g.velocities[t] == e.velocities[t];
  }

  /** Under the bounded pass a padding texel at rest at the origin stays there. */
  lemma BoundedPaddingRests(g: Gpu, n: nat, t: nat)
    requires g.Valid() && n <= t < g.cols * g.cols
    requires g.positions[t] == Zero && g.velocities[t] == Zero
    ensures BoundedCompute(g, n).positions[t] == Zero && BoundedCompute(g, n).velocities[t] == Zero
  {
    assert BoundedForcePass(g, n)[t] == Gravity(Zero, GravityK) == Zero;
  }

  /**
   * One bounded `compute()` moves every node exactly as one CPU `step()` with
   * dampening 0.9; padding texels at rest at the origin stay there.
   */
  lemma BoundedComputeMatchesCpu<A>(g: Gpu, e: CpuSimulation.Engine<A>)
    requires Mirrors(g, e) && LiteralCoefficients(e.coeff) && e.coeff.dampening == Decay && Apart(e.positions)
    requires forall m :: 0 <= m < |e.weights| ==> 0.0 <= e.weights[m] <= 1.0
    ensures Separated(e.positions)
    ensures forall t :: 0 <= t < e.Count() ==>
              BoundedCompute(g, e.Count()).positions[t] == CpuSimulation.Step(e).positions[t]
              && BoundedCompute(g, e.Count()).velocities[t] == CpuSimulation.Step(e).velocities[t]
    ensures forall t :: e.Count() <= t < g.cols * g.cols && g.positions[t] == Zero && g.velocities[t] == Zero ==>
              BoundedCompute(g, e.Count()).positions[t] == Zero
  {
    var n := e.Count();
    assert Separated(e.positions);
    forall t | 0 <= t < n
      ensures BoundedCompute(g, n).positions[t] == CpuSimulation.Step(e).positions[t]
              && BoundedCompute(g, n).velocities[t] == CpuSimulation.Step(e).velocities[t]
    {
      BoundedComputeNode(g, e, t);
    }
    BoundedPaddingStays(g, n);
  }

  lemma BoundedPaddingStays(g: Gpu, n: nat)
    requires g.Valid()
    ensures forall t :: n <= t < g.cols * g.cols && g.positions[t] == Zero && g.velocities[t] == Zero ==>
              BoundedCompute(g, n).positions[t] == Zero
  {
    forall t | n <= t < g.cols * g.cols && g.positions[t] == Zero && g.velocities[t] == Zero
      ensures BoundedCompute(g, n).positions[t] == Zero
    {
      BoundedPaddingRests(g, n, t);
    }
  }

  /** The push a padding texel at the origin gives a node at `p`: repulsion only, along `-p`. */
  function PaddingPush(p: Vec3): Vec3
    requires Dot(p, p) >= NearSq
  {
    Scale(Sub(Zero, p), Repulsion / Dot(p, p))
  }

  /** An iteration whose partner is a padding texel at the origin, with no weight, adds `PaddingPush`. */
  lemma ContributePadding(acc: Vec3, p: Vec3)
    requires Dot(p, p) >= NearSq
    ensures Contribute(acc, Sub(Zero, p), 0.0) == Add(acc, PaddingPush(p))
  {
    var v := Sub(Zero, p);
    assert Dot(v, v) == Dot(p, p);
    ContributeFar(acc, v, 0.0);
    assert Scale(v, 0.0 * Attraction) == Zero;
  }

  lemma AddScaleStep(a: Vec3, q: Vec3, m: real)
    ensures Add(Add(a, Scale(q, m)), q) == Add(a, Scale(q, m + 1.0))
  {
  }

  /**
   * Partners `lo .. k-1` all read padding texels at the origin (and there is no
   * weight anywhere): each adds the same `PaddingPush` to node `n1`'s force.
   */
  lemma {:induction false} PaddingRun(ps: seq<Vec3>, ws: seq<real>, cols: nat, edgeCols: nat, stride: nat, n1: nat, lo: nat, k: nat)
    requires cols >= 1 && edgeCols >= 1 && |ps| == cols * cols && |ws| == edgeCols * edgeCols
    requires n1 < cols * cols && n1 < lo <= k && Dot(ps[n1], ps[n1]) >= NearSq
    requires forall n2 :: lo <= n2 < k ==> ps[TextureLayout.ClampedIndex(n2, cols)] == Zero
    requires forall m :: 0 <= m < |ws| ==> ws[m] == 0.0
    ensures Accumulate(ps, ws, cols, edgeCols, stride, n1, k)
            == Add(Accumulate(ps, ws, cols, edgeCols, stride, n1, lo), Scale(PaddingPush(ps[n1]), (k - lo) as real))
    decreases k
  {
    var q := PaddingPush(ps[n1]);
    if k == lo {
      assert Scale(q, 0.0) == Zero;
    } else {
      PaddingRun(ps, ws, cols, edgeCols, stride, n1, lo, k - 1);
      AccumulateStep(ps, ws, cols, edgeCols, stride, n1, k);
      assert ps[TextureLayout.ClampedIndex(k - 1, cols)] == Zero;
      ContributePadding(Accumulate(ps, ws, cols, edgeCols, stride, n1, k - 1), ps[n1]);
      AddScaleStep(Accumulate(ps, ws, cols, edgeCols, stride, n1, lo), q, (k - 1 - lo) as real);
    }
  }

  /** Node 0's loop over partners 0 and 1: gravity, then partner 1 with no weight. */
  lemma FirstPartner(ps: seq<Vec3>, ws: seq<real>, cols: nat, edgeCols: nat, stride: nat, n1: nat, k: nat)
    requires cols >= 1 && edgeCols >= 1 && |ps| == cols * cols && |ws| == edgeCols * edgeCols && |ps| >= 2
    requires forall m :: 0 <= m < |ws| ==> ws[m] == 0.0
    requires n1 == 0 && k == 2
    ensures Accumulate(ps, ws, cols, edgeCols, stride, n1, k)
            == Contribute(Gravity(ps[n1], GravityK), Sub(ps[k - 1], ps[n1]), 0.0)
  {
    AccumulateStep(ps, ws, cols, edgeCols, stride, n1, k);
    assert Accumulate(ps, ws, cols, edgeCols, stride, n1, k - 1) == Gravity(ps[n1], GravityK);
    assert TextureLayout.ClampedIndex(k - 1, cols) == k - 1;
    assert ws[TextureLayout.ClampedIndex(n1 * stride + k - 1, edgeCols)] == 0.0;
    assert Sub(ps[TextureLayout.ClampedIndex(k - 1, cols)], ps[n1]) == Sub(ps[k - 1], ps[n1]);
  }

  /** Past the first `cols * (cols - 1)` texels the clamped read stays in the last row. */
  lemma ClampedTail(n: nat, cols: nat)
    requires cols >= 1 && n >= cols * (cols - 1)
    ensures cols * (cols - 1) <= TextureLayout.ClampedIndex(n, cols) < cols * cols
  {
    if n >= cols * cols {
      var y := n / cols;
      assert n == y * cols + n % cols;
      assert y * cols > (cols - 1) * cols;
      assert y >= cols;
    }
  }

  /** The two-node graph that exposes the bound: nodes at x = 1 and x = 3, no edges. */
  function TwoNodes(): CpuSimulation.Graph<()> {
    CpuSimulation.Graph([CpuSimulation.GraphNode(Vec3(1.0, 0.0, 0.0), ()),
                         CpuSimulation.GraphNode(Vec3(3.0, 0.0, 0.0), ())], [])
  }

  /** The textures of that graph: two nodes, two padding texels at the origin, no weight. */
  predicate TwoNodeTextures(g: Gpu) {
    g.Valid() && g.cols == 2 && g.edgeCols == 2 && |g.positions| == 4 && |g.weights| == 4
    && g.positions[0] == Vec3(1.0, 0.0, 0.0) && g.positions[1] == Vec3(3.0, 0.0, 0.0)
    && g.positions[2] == Zero && g.positions[3] == Zero
    && (forall k :: 0 <= k < |g.weights| ==> g.weights[k] == 0.0)
  }

  /** A partner on the x axis at offset `a`, with no weight, pushes by `repulsion / a`. */
  lemma ContributeOnAxis(acc: Vec3, a: real)
    requires a * a >= NearSq
    ensures Contribute(acc, Vec3(a, 0.0, 0.0), 0.0) == Add(acc, Vec3(Repulsion / a, 0.0, 0.0))
  {
    var v := Vec3(a, 0.0, 0.0);
    assert Dot(v, v) == a * a;
    assert a * (1.0 / (a * a)) == 1.0 / a;
    assert (1.0 / a) * Repulsion == Repulsion / a;
    assert Scale(Scale(v, 1.0 / (a * a)), Repulsion) == Vec3(Repulsion / a, 0.0, 0.0);
    assert Scale(Scale(v, Attraction), Clamp01(0.0)) == Zero;
  }

  /** Every partner from 2 on reads one of the two padding texels. */
  lemma TwoNodePadding(g: Gpu)
    requires TwoNodeTextures(g)
    ensures forall n2 :: 2 <= n2 < Bound ==> g.positions[TextureLayout.ClampedIndex(n2, g.cols)] == Zero
  {
    var cols := g.cols;
    assert cols * (cols - 1) == 2 && cols * cols == 4;
    forall n2 | 2 <= n2 < Bound
      ensures g.positions[TextureLayout.ClampedIndex(n2, cols)] == Zero
    {
      ClampedTail(n2, cols);
    }
  }

  /** Node 0 of the two-node graph at `(1, 0, 0)`: gravity pulls it by `-0.005`. */
  lemma GravityValue(p0: Vec3)
    requires p0 == Vec3(1.0, 0.0, 0.0)
    ensures Gravity(p0, GravityK) == Vec3(-0.005, 0.0, 0.0)
  {
  }

  /** The real pair of the two-node graph: gravity `-0.005` plus node 1's repulsion `-0.075`. */
  lemma RealPairValue(p0: Vec3, p1: Vec3)
    requires p0 == Vec3(1.0, 0.0, 0.0) && p1 == Vec3(3.0, 0.0, 0.0)
    ensures Contribute(Gravity(p0, GravityK), Sub(p1, p0), 0.0) == Vec3(-0.08, 0.0, 0.0)
  {
    GravityValue(p0);
    PairStep(Gravity(p0, GravityK), Sub(p1, p0));
  }

  lemma PairStep(acc: Vec3, v: Vec3)
    requires acc == Vec3(-0.005, 0.0, 0.0) && v == Vec3(2.0, 0.0, 0.0)
    ensures Contribute(acc, v, 0.0) == Vec3(-0.08, 0.0, 0.0)
  {
    TwoFar(v.x);
    AxisSum(acc, v.x);
    ContributeOnAxis(acc, v.x);
  }

  lemma TwoFar(a: real)
    requires a == 2.0
    ensures a * a >= NearSq
  {
  }

  lemma AxisSum(acc: Vec3, a: real)
    requires acc == Vec3(-0.005, 0.0, 0.0) && a == 2.0
    ensures Add(acc, Vec3(Repulsion / a, 0.0, 0.0)) == Vec3(-0.08, 0.0, 0.0)
  {
    assert Repulsion / a == -0.075;
  }

  /** A padding texel pushes node 0 of the two-node graph by `0.15` along x. */
  lemma PaddingPushValue(p0: Vec3)
    requires p0 == Vec3(1.0, 0.0, 0.0)
    ensures Dot(p0, p0) == 1.0
    ensures PaddingPush(p0) == Vec3(0.15, 0.0, 0.0)
  {
    UnitPush(p0, Dot(p0, p0));
  }

  lemma UnitPush(p0: Vec3, d: real)
    requires p0 == Vec3(1.0, 0.0, 0.0) && d == 1.0
    ensures Scale(Sub(Zero, p0), Repulsion / d) == Vec3(0.15, 0.0, 0.0)
  {
    assert Repulsion / d == -0.15;
    assert Sub(Zero, p0) == Vec3(-1.0, 0.0, 0.0);
  }

  /** 438 padding partners after the real pair: `-0.08 + 438 * 0.15`. */
  lemma PhantomTotal()
    ensures Add(Vec3(-0.08, 0.0, 0.0), Scale(Vec3(0.15, 0.0, 0.0), (Bound - 2) as real)) == Vec3(65.62, 0.0, 0.0)
  {
  }

  /** Node 0's loop over its two real partners, whatever the stride: `x = -0.08`. */
  lemma TwoNodesRealPart(g: Gpu, stride: nat)
    requires TwoNodeTextures(g)
    ensures Accumulate(g.positions, g.weights, g.cols, g.edgeCols, stride, 0, 2) == Vec3(-0.08, 0.0, 0.0)
  {
    FirstPartner(g.positions, g.weights, g.cols, g.edgeCols, stride, 0, 2);
    RealPairValue(g.positions[0], g.positions[1]);
  }

  /** As written, node 0's loop runs on over 438 padding partners, each adding `0.15`. */
  lemma TwoNodesAsWritten(g: Gpu)
    requires TwoNodeTextures(g)
    ensures ForcePass(g)[0] == Vec3(65.62, 0.0, 0.0)
  {
    var ps, ws, cols := g.positions, g.weights, g.cols;
    TwoNodesRealPart(g, Bound);
    TwoNodePadding(g);
    PaddingPushValue(ps[0]);
    PaddingRun(ps, ws, cols, g.edgeCols, Bound, 0, 2, Bound);
    PhantomTotal();
    assert ForcePass(g)[0] == Accumulate(ps, ws, cols, g.edgeCols, Bound, 0, Bound);
  }

  /**
   * As written, node 0 of the two-node graph is pushed by 438 phantom partners
   * (the padding texels, read again and again through clamp-to-edge) and its
   * force is `x = 65.62`; bounded by the node count it is `x = -0.08`, the
   * force the CPU engine computes for the same graph.
   */
  lemma TwoNodesDisagree(g: Gpu)
    requires TwoNodeTextures(g)
    ensures ForcePass(g)[0] == Vec3(65.62, 0.0, 0.0)
    ensures BoundedForcePass(g, 2)[0] == Vec3(-0.08, 0.0, 0.0)
  {
    TwoNodesAsWritten(g);
    TwoNodesRealPart(g, 2);
    assert BoundedForcePass(g, 2)[0] == Accumulate(g.positions, g.weights, g.cols, g.edgeCols, 2, 0, 2);
  }

  /** `Create` builds exactly those textures for `TwoNodes()`. */
  lemma TwoNodesCreate(coeff: Coefficients)
    ensures Create(TwoNodes(), coeff).Ok?
    ensures TwoNodeTextures(Create(TwoNodes(), coeff).value)
  {
    var graph := TwoNodes();
    assert Adjacency.FirstOutOfRange(graph.edges, 2) == None;
    var g := Create(graph, coeff).value;
    assert TextureLayout.TextureSide(2, 1) == 2;
    assert TextureLayout.TextureSide(4, 1) == 2;
    CreateLayout(graph, coeff);
    var cpu := CpuSimulation.Create(graph, coeff).value;
    forall i, j | 0 <= i < 2 && 0 <= j < 2
      ensures CpuSimulation.WeightOf(cpu.weights, 2, i, j) == 0.0
    {
      Adjacency.WeightMatrix(2, graph.edges, i, j);
    }
    assert cpu.weights[0] == CpuSimulation.WeightOf(cpu.weights, 2, 0, 0);
    assert cpu.weights[1] == CpuSimulation.WeightOf(cpu.weights, 2, 0, 1);
    assert cpu.weights[2] == CpuSimulation.WeightOf(cpu.weights, 2, 1, 0);
    assert cpu.weights[3] == CpuSimulation.WeightOf(cpu.weights, 2, 1, 1);
    assert g.weights[..4] == cpu.weights;
  }
}
