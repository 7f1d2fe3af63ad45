/**
 * `Simulation`, the engine the graph component drives: forces live on the
 * nodes, gravity pulls every node, each edge pulls its endpoints together with
 * a mass-split force, every unordered pair repels, and the shared integrator
 * moves the nodes. Its own animation loop steps only while not paused.
 */
module Simulation {
  import opened Wrappers
  import opened Vectors
  import opened Physics
  import Adjacency

  datatype Node = Node(pos: Vec3, velocity: Vec3, force: Vec3, mass: real)

  datatype Sim = Sim(nodes: seq<Node>, edges: seq<Adjacency.Edge>, coeff: Coefficients, paused: bool)

  /** The constructor stores its arguments and starts paused. */
  function Create(nodes: seq<Node>, edges: seq<Adjacency.Edge>, coeff: Coefficients): (s: Sim)
    ensures s.paused
    ensures s.nodes == nodes && s.edges == edges && s.coeff == coeff
  {
    Sim(nodes, edges, coeff, true)
  }

  function Positions(nodes: seq<Node>): (ps: seq<Vec3>)
    ensures |ps| == |nodes|
    ensures forall i :: 0 <= i < |nodes| ==> ps[i] == nodes[i].pos
  {
    seq(|nodes|, i requires 0 <= i < |nodes| => nodes[i].pos)
  }

  function Masses(nodes: seq<Node>): (ms: seq<real>)
    ensures |ms| == |nodes|
    ensures forall i :: 0 <= i < |nodes| ==> ms[i] == nodes[i].mass
  {
    seq(|nodes|, i requires 0 <= i < |nodes| => nodes[i].mass)
  }

  /** Every edge that can be evaluated has endpoint masses with a non-zero sum. */
  predicate MassSplittable(ms: seq<real>, edges: seq<Adjacency.Edge>) {
    forall k :: 0 <= k < |edges| && Adjacency.InRange(edges[k], |ms|) ==>
      ms[edges[k].source] + ms[edges[k].target] != 0.0
  }

  /** The edge's pull `(p1 - p2) * attraction * max(0, w)` before it is split. */
  function EdgeForce(ps: seq<Vec3>, e: Adjacency.Edge, attraction: real): Vec3
    requires Adjacency.InRange(e, |ps|)
  {
    Scale(Sub(ps[e.source], ps[e.target]), attraction * Adjacency.ClampWeight(e.weight))
  }

  /** The two shares: `f1 = force * m2 / (m1 + m2)` and `f2 = force * m1 / (m1 + m2)`. */
  function Shares(force: Vec3, m1: real, m2: real): (r: (Vec3, Vec3))
    requires m1 + m2 != 0.0
  {
    (Scale(force, m2 / (m1 + m2)), Scale(force, m1 / (m1 + m2)))
  }

  /**
   * The shares add up to the whole force, and they are in the ratio `m2 : m1`,
   * so the lighter endpoint takes the larger share.
   */
  lemma SharesSplitForce(force: Vec3, m1: real, m2: real)
    requires m1 + m2 != 0.0
    ensures Add(Shares(force, m1, m2).0, Shares(force, m1, m2).1) == force
    ensures Scale(Shares(force, m1, m2).0, m1) == Scale(Shares(force, m1, m2).1, m2)
  {
    var t := m1 + m2;
    var a, b := m2 / t, m1 / t;
    assert a + b == 1.0;
    assert a * m1 == b * m2;
    assert force.x * a + force.x * b == force.x * (a + b);
    assert force.y * a + force.y * b == force.y * (a + b);
    assert force.z * a + force.z * b == force.z * (a + b);
    assert force.x * a * m1 == force.x * (a * m1);
    assert force.x * b * m2 == force.x * (b * m2);
    assert force.y * a * m1 == force.y * (a * m1);
    assert force.y * b * m2 == force.y * (b * m2);
    assert force.z * a * m1 == force.z * (a * m1);
    assert force.z * b * m2 == force.z * (b * m2);
  }

  /** One iteration of the attraction loop: `n1.force -= f1; n2.force += f2`. */
  function Attract(fs: seq<Vec3>, ps: seq<Vec3>, ms: seq<real>, e: Adjacency.Edge, attraction: real): (r: seq<Vec3>)
    requires |fs| == |ps| == |ms| && Adjacency.InRange(e, |ps|)
    requires ms[e.source] + ms[e.target] != 0.0
    ensures |r| == |fs|
    ensures forall i :: 0 <= i < |fs| && i != e.source && i != e.target ==> r[i] == fs[i]
  {
    var sh := Shares(EdgeForce(ps, e, attraction), ms[e.source], ms[e.target]);
    AddAt(AddAt(fs, e.source, Neg(sh.0)), e.target, sh.1)
  }

  /** A self-loop pulls its node towards itself: it leaves every force unchanged. */
  lemma SelfLoopInert(fs: seq<Vec3>, ps: seq<Vec3>, ms: seq<real>, e: Adjacency.Edge, attraction: real)
    requires |fs| == |ps| == |ms| && Adjacency.InRange(e, |ps|)
    requires ms[e.source] + ms[e.target] != 0.0
    requires e.source == e.target
    ensures Attract(fs, ps, ms, e, attraction) == fs
  {
    assert EdgeForce(ps, e, attraction) == Zero;
  }

  /** The mass-weighted total `sum_i m_i * f_i`. */
  function Weighted(ms: seq<real>, fs: seq<Vec3>): (r: seq<Vec3>)
    requires |ms| == |fs|
    ensures |r| == |fs|
    ensures forall i :: 0 <= i < |fs| ==> r[i] == Scale(fs[i], ms[i])
  {
    seq(|fs|, i requires 0 <= i < |fs| => Scale(fs[i], ms[i]))
  }

  lemma WeightedAddAt(ms: seq<real>, fs: seq<Vec3>, i: nat, v: Vec3)
    requires |ms| == |fs| && i < |fs|
    ensures Sum(Weighted(ms, AddAt(fs, i, v))) == Add(Sum(Weighted(ms, fs)), Scale(v, ms[i]))
  {
    var m := ms[i];
    ScaleAdd(fs[i], v, m);
    assert Weighted(ms, AddAt(fs, i, v)) == AddAt(Weighted(ms, fs), i, Scale(v, m));
    SumAddAt(Weighted(ms, fs), i, Scale(v, m));
  }

  /** The net of the two shares, `f2 - f1 = force * (m1 - m2) / (m1 + m2)`. */
  lemma SharesNet(force: Vec3, m1: real, m2: real)
    requires m1 + m2 != 0.0
    ensures Add(Neg(Shares(force, m1, m2).0), Shares(force, m1, m2).1)
            == Scale(force, (m1 - m2) / (m1 + m2))
  {
    var t := m1 + m2;
    assert m1 / t - m2 / t == (m1 - m2) / t;
    assert force.x * (m1 / t) - force.x * (m2 / t) == force.x * ((m1 - m2) / t);
    assert force.y * (m1 / t) - force.y * (m2 / t) == force.y * ((m1 - m2) / t);
    assert force.z * (m1 / t) - force.z * (m2 / t) == force.z * ((m1 - m2) / t);
  }

  /**
   * The mass split balances the edge's forces in the mass-weighted sense:
   * `m1 * (-f1) + m2 * f2 == 0`, so the total `sum_i m_i * force_i` is unchanged.
   */
  lemma AttractBalanced(fs: seq<Vec3>, ps: seq<Vec3>, ms: seq<real>, e: Adjacency.Edge, attraction: real)
    requires |fs| == |ps| == |ms| && Adjacency.InRange(e, |ps|)
    requires ms[e.source] + ms[e.target] != 0.0
    ensures Sum(Weighted(ms, Attract(fs, ps, ms, e, attraction))) == Sum(Weighted(ms, fs))
  {
    var m1, m2 := ms[e.source], ms[e.target];
    var sh := Shares(EdgeForce(ps, e, attraction), m1, m2);
    SharesSplitForce(EdgeForce(ps, e, attraction), m1, m2);
    ScaleNeg(sh.0, m1);
    WeightedAddAt(ms, fs, e.source, Neg(sh.0));
    WeightedAddAt(ms, AddAt(fs, e.source, Neg(sh.0)), e.target, sh.1);
  }

  lemma SumAddTwo(fs: seq<Vec3>, i: nat, j: nat, a: Vec3, b: Vec3)
    requires i < |fs| && j < |fs|
    ensures Sum(AddAt(AddAt(fs, i, a), j, b)) == Add(Sum(fs), Add(a, b))
  {
    var s1 := AddAt(fs, i, a);
    SumAddAt(fs, i, a);
    SumAddAt(s1, j, b);
    AddAssoc(Sum(fs), a, b);
  }

  /** Unfolds `Attract` into its two writes, for `AttractBalanced` and `AttractNet`. */
  lemma AttractUpdates(fs: seq<Vec3>, ps: seq<Vec3>, ms: seq<real>, e: Adjacency.Edge, attraction: real)
    requires |fs| == |ps| == |ms| && Adjacency.InRange(e, |ps|)
    requires ms[e.source] + ms[e.target] != 0.0
    ensures var sh := Shares(EdgeForce(ps, e, attraction), ms[e.source], ms[e.target]);
            Attract(fs, ps, ms, e, attraction) == AddAt(AddAt(fs, e.source, Neg(sh.0)), e.target, sh.1)
  {
  }

  /**
   * The plain total, by contrast, changes by `force * (m1 - m2) / (m1 + m2)`:
   * the edge's pulls are equal and opposite only between equal masses.
   */
  lemma AttractNet(fs: seq<Vec3>, ps: seq<Vec3>, ms: seq<real>, e: Adjacency.Edge, attraction: real)
    requires |fs| == |ps| == |ms| && Adjacency.InRange(e, |ps|)
    requires ms[e.source] + ms[e.target] != 0.0
    ensures Sum(Attract(fs, ps, ms, e, attraction))
            == Add(Sum(fs), Scale(EdgeForce(ps, e, attraction),
                                  (ms[e.source] - ms[e.target]) / (ms[e.source] + ms[e.target])))
  {
    var m1, m2 := ms[e.source], ms[e.target];
    var f := EdgeForce(ps, e, attraction);
    var sh := Shares(f, m1, m2);
    SumAddTwo(fs, e.source, e.target, Neg(sh.0), sh.1);
    SharesNet(f, m1, m2);
    AttractUpdates(fs, ps, ms, e, attraction);
  }

  /** The attraction loop over `graph.edges`, in order. */
  function AttractAll(fs: seq<Vec3>, ps: seq<Vec3>, ms: seq<real>, edges: seq<Adjacency.Edge>, attraction: real): (r: seq<Vec3>)
    requires |fs| == |ps| == |ms|
    requires forall k :: 0 <= k < |edges| ==> Adjacency.InRange(edges[k], |ps|)
    requires MassSplittable(ms, edges)
    ensures |r| == |fs|
    decreases |edges|
  {
    if |edges| == 0 then fs
    else
      var init := edges[..|edges| - 1];
      assert MassSplittable(ms, init) by {
        assert forall k :: 0 <= k < |init| ==> init[k] == edges[k];
      }
      Attract(AttractAll(fs, ps, ms, init, attraction), ps, ms, edges[|edges| - 1], attraction)
  }

  /** The whole attraction loop keeps the mass-weighted force total. */
  lemma {:induction false} AttractAllBalanced(fs: seq<Vec3>, ps: seq<Vec3>, ms: seq<real>, edges: seq<Adjacency.Edge>, attraction: real)
    requires |fs| == |ps| == |ms|
    requires forall k :: 0 <= k < |edges| ==> Adjacency.InRange(edges[k], |ps|)
    requires MassSplittable(ms, edges)
    ensures Sum(Weighted(ms, AttractAll(fs, ps, ms, edges, attraction))) == Sum(Weighted(ms, fs))
    decreases |edges|
  {
    if |edges| > 0 {
      var init := edges[..|edges| - 1];
      assert forall k :: 0 <= k < |init| ==> init[k] == edges[k];
      AttractAllBalanced(fs, ps, ms, init, attraction);
      AttractBalanced(AttractAll(fs, ps, ms, init, attraction), ps, ms, edges[|edges| - 1], attraction);
    }
  }

  /** `repulsion / distance / 2` along the unit vector: `(ps - pt) * repulsion / (2 |ps - pt|^2)`. */
  function PairForce(ps: seq<Vec3>, s: nat, t: nat, repulsion: real): Vec3
    requires s < |ps| && t < |ps| && DistSq(ps[s], ps[t]) != 0.0
  {
    Scale(Sub(ps[s], ps[t]), repulsion / (2.0 * DistSq(ps[s], ps[t])))
  }

  /** One iteration of the repulsion loop: `s.force -= force; t.force += force`. */
  function Repel(fs: seq<Vec3>, ps: seq<Vec3>, s: nat, t: nat, repulsion: real): (r: seq<Vec3>)
    requires |fs| == |ps| && s < t < |ps| && Separated(ps)
    ensures |r| == |fs|
  {
    var f := PairForce(ps, s, t, repulsion);
    AddAt(AddAt(fs, s, Neg(f)), t, f)
  }

  /** The inner loop `for t in s+1 .. n` from a given `t`. */
  function RepelInner(fs: seq<Vec3>, ps: seq<Vec3>, s: nat, t: nat, repulsion: real): (r: seq<Vec3>)
    requires |fs| == |ps| && s < t <= |ps| && Separated(ps)
    ensures |r| == |fs|
    decreases |ps| - t
  {
    if t == |ps| then fs else RepelInner(Repel(fs, ps, s, t, repulsion), ps, s, t + 1, repulsion)
  }

  /** The outer loop `for s in 0 .. n` from a given `s`. */
  function RepelOuter(fs: seq<Vec3>, ps: seq<Vec3>, s: nat, repulsion: real): (r: seq<Vec3>)
    requires |fs| == |ps| && s <= |ps| && Separated(ps)
    ensures |r| == |fs|
    decreases |ps| - s
  {
    if s == |ps| then fs else RepelOuter(RepelInner(fs, ps, s, s + 1, repulsion), ps, s + 1, repulsion)
  }

  /** Each pair's forces are equal and opposite: the total is unchanged. */
  lemma RepelBalanced(fs: seq<Vec3>, ps: seq<Vec3>, s: nat, t: nat, repulsion: real)
    requires |fs| == |ps| && s < t < |ps| && Separated(ps)
    ensures Sum(Repel(fs, ps, s, t, repulsion)) == Sum(fs)
  {
    var f := PairForce(ps, s, t, repulsion);
    SumAddAt(fs, s, Neg(f));
    SumAddAt(AddAt(fs, s, Neg(f)), t, f);
  }

  lemma {:induction false} RepelInnerBalanced(fs: seq<Vec3>, ps: seq<Vec3>, s: nat, t: nat, repulsion: real)
    requires |fs| == |ps| && s < t <= |ps| && Separated(ps)
    ensures Sum(RepelInner(fs, ps, s, t, repulsion)) == Sum(fs)
    decreases |ps| - t
  {
    if t < |ps| {
      RepelBalanced(fs, ps, s, t, repulsion);
      RepelInnerBalanced(Repel(fs, ps, s, t, repulsion), ps, s, t + 1, repulsion);
    }
  }

  /** All repulsion contributions together sum to the zero vector. */
  lemma {:induction false} RepelOuterBalanced(fs: seq<Vec3>, ps: seq<Vec3>, s: nat, repulsion: real)
    requires |fs| == |ps| && s <= |ps| && Separated(ps)
    ensures Sum(RepelOuter(fs, ps, s, repulsion)) == Sum(fs)
    decreases |ps| - s
  {
    if s < |ps| {
      RepelInnerBalanced(fs, ps, s, s + 1, repulsion);
      RepelOuterBalanced(RepelInner(fs, ps, s, s + 1, repulsion), ps, s + 1, repulsion);
    }
  }

  /** Reference definition: the push node `i` receives from node `j`. */
  function Push(ps: seq<Vec3>, i: nat, j: nat, repulsion: real): Vec3
    requires i < |ps| && j < |ps| && Separated(ps)
  {
    if i == j then Zero else Scale(Sub(ps[j], ps[i]), repulsion / (2.0 * DistSq(ps[i], ps[j])))
  }

  function Pushes(ps: seq<Vec3>, i: nat, repulsion: real): (row: seq<Vec3>)
    requires i < |ps| && Separated(ps)
    ensures |row| == |ps|
    ensures forall j :: 0 <= j < |ps| ==> row[j] == Push(ps, i, j, repulsion)
  {
    seq(|ps|, j requires 0 <= j < |ps| => Push(ps, i, j, repulsion))
  }

  /** The loop's `-force` on `s` and `+force` on `t` are the pushes `t -> s` and `s -> t`. */
  lemma RepelIsPush(ps: seq<Vec3>, s: nat, t: nat, repulsion: real)
    requires s < t < |ps| && Separated(ps)
    ensures Neg(PairForce(ps, s, t, repulsion)) == Push(ps, s, t, repulsion)
    ensures PairForce(ps, s, t, repulsion) == Push(ps, t, s, repulsion)
  {
    DistSqSymmetric(ps[s], ps[t]);
    var k := repulsion / (2.0 * DistSq(ps[s], ps[t]));
    var d := Sub(ps[s], ps[t]);
    assert Sub(ps[t], ps[s]) == Neg(d);
    ScaleNeg(d, k);
  }

  /**
   * What node `i` has accumulated once the outer loop has finished rows `< s`
   * and the inner loop of row `s` has reached `t`.
   */
  function Partial(fs: seq<Vec3>, ps: seq<Vec3>, repulsion: real, s: nat, t: nat, i: nat): Vec3
    requires |fs| == |ps| && i < |ps| && s < |ps| && t <= |ps| && Separated(ps)
  {
    var row := Pushes(ps, i, repulsion);
    if i < s then Add(fs[i], RowSum(row, i, |ps|))
    else if i == s then Add(fs[i], RowSum(row, i, t))
    else if i < t then Add(fs[i], RowSum(row, i, s + 1))
    else Add(fs[i], RowSum(row, i, s))
  }

  lemma {:induction false} RepelInnerPartial(fs0: seq<Vec3>, fs: seq<Vec3>, ps: seq<Vec3>, s: nat, t: nat, repulsion: real)
    requires |fs0| == |fs| == |ps| && s < t <= |ps| && Separated(ps)
    requires forall i :: 0 <= i < |ps| ==> fs[i] == Partial(fs0, ps, repulsion, s, t, i)
    ensures forall i :: 0 <= i < |ps| ==>
              RepelInner(fs, ps, s, t, repulsion)[i] == Partial(fs0, ps, repulsion, s, |ps|, i)
    decreases |ps| - t
  {
    if t < |ps| {
      var fs' := Repel(fs, ps, s, t, repulsion);
      RepelIsPush(ps, s, t, repulsion);
      forall i | 0 <= i < |ps|
        ensures fs'[i] == Partial(fs0, ps, repulsion, s, t + 1, i)
      {
        var row := Pushes(ps, i, repulsion);
        if i == t {
          assert RowSum(row, i, s + 1) == Add(RowSum(row, i, s), row[s]);
        } else if i == s {
          assert RowSum(row, i, t + 1) == Add(RowSum(row, i, t), row[t]);
        }
      }
      RepelInnerPartial(fs0, fs', ps, s, t + 1, repulsion);
    }
  }

  lemma {:induction false} RepelOuterPartial(fs0: seq<Vec3>, fs: seq<Vec3>, ps: seq<Vec3>, s: nat, repulsion: real)
    requires |fs0| == |fs| == |ps| && s <= |ps| && Separated(ps)
    requires forall i :: 0 <= i < |ps| ==>
               fs[i] == (if i < s then Add(fs0[i], RowSum(Pushes(ps, i, repulsion), i, |ps|))
                         else Add(fs0[i], RowSum(Pushes(ps, i, repulsion), i, s)))
    ensures forall i :: 0 <= i < |ps| ==>
              RepelOuter(fs, ps, s, repulsion)[i] == Add(fs0[i], RowSum(Pushes(ps, i, repulsion), i, |ps|))
    decreases |ps| - s
  {
    if s < |ps| {
      forall i | 0 <= i < |ps|
        ensures fs[i] == Partial(fs0, ps, repulsion, s, s + 1, i)
      {
        if i == s {
          var row := Pushes(ps, i, repulsion);
          assert RowSum(row, i, s + 1) == RowSum(row, i, s);
        }
      }
      RepelInnerPartial(fs0, fs, ps, s, s + 1, repulsion);
      var fs' := RepelInner(fs, ps, s, s + 1, repulsion);
      forall i | 0 <= i < |ps|
        ensures fs'[i] == (if i < s + 1 then Add(fs0[i], RowSum(Pushes(ps, i, repulsion), i, |ps|))
                           else Add(fs0[i], RowSum(Pushes(ps, i, repulsion), i, s + 1)))
      {
      }
      RepelOuterPartial(fs0, fs', ps, s + 1, repulsion);
    }
  }

  /**
   * The double loop over unordered pairs gives node `i` exactly the pushes of
   * every other node, `sum_{j != i} (pj - pi) * repulsion / (2 |pj - pi|^2)`,
   * accumulated in ascending `j`.
   */
  lemma RepulsionPerNode(fs: seq<Vec3>, ps: seq<Vec3>, repulsion: real, i: nat)
    requires |fs| == |ps| && Separated(ps) && i < |ps|
    ensures RepelOuter(fs, ps, 0, repulsion)[i] == Add(fs[i], RowSum(Pushes(ps, i, repulsion), i, |ps|))
  {
    forall k | 0 <= k < |ps|
      ensures fs[k] == Add(fs[k], RowSum(Pushes(ps, k, repulsion), k, 0))
    {
    }
    RepelOuterPartial(fs, fs, ps, 0, repulsion);
  }

  /**
   * The forces after the reset, gravity, attraction and repulsion loops
   * (reset to zero and then adding gravity leaves the gravity term).
   */
  function Forces(ps: seq<Vec3>, ms: seq<real>, edges: seq<Adjacency.Edge>, c: Coefficients): (fs: seq<Vec3>)
    requires |ps| == |ms| && Separated(ps) && MassSplittable(ms, edges)
    requires forall k :: 0 <= k < |edges| ==> Adjacency.InRange(edges[k], |ps|)
    ensures |fs| == |ps|
  {
    RepelOuter(AttractAll(Gravities(ps, c.gravity), ps, ms, edges, c.attraction), ps, 0, c.repulsion)
  }

  function Integrated(nodes: seq<Node>, fs: seq<Vec3>, dampening: real): (r: seq<Node>)
    requires |fs| == |nodes|
    ensures |r| == |nodes|
  {
    seq(|nodes|, i requires 0 <= i < |nodes| =>
      var st := Integrate(State(nodes[i].pos, nodes[i].velocity), fs[i], dampening);
      nodes[i].(force := fs[i], velocity := st.vel, pos := st.pos))
  }

  /**
   * `step()`. An edge whose endpoint is not a node makes `graph.nodes[n]`
   * undefined and the step throws before any velocity or position moves.
   */
  function Step(sim: Sim): (r: Result<Sim, Adjacency.BuildError>)
    requires Separated(Positions(sim.nodes)) && MassSplittable(Masses(sim.nodes), sim.edges)
    ensures r.Ok? <==> forall k :: 0 <= k < |sim.edges| ==> Adjacency.InRange(sim.edges[k], |sim.nodes|)
    ensures r.Err? ==> Adjacency.FirstOutOfRange(sim.edges, |sim.nodes|) == Some(r.error.edge)
    ensures r.Ok? ==> |r.value.nodes| == |sim.nodes| && r.value.edges == sim.edges
                      && r.value.coeff == sim.coeff && r.value.paused == sim.paused
    ensures r.Ok? ==> forall i :: 0 <= i < |sim.nodes| ==> r.value.nodes[i].mass == sim.nodes[i].mass
  {
    match Adjacency.FirstOutOfRange(sim.edges, |sim.nodes|)
    case Some(k) => Err(Adjacency.EndpointOutOfRange(k))
    case None =>
      var fs := Forces(Positions(sim.nodes), Masses(sim.nodes), sim.edges, sim.coeff);
      Ok(sim.(nodes := Integrated(sim.nodes, fs, sim.coeff.dampening)))
  }

  /** Every node's new force, velocity and position come from the shared integrator. */
  lemma StepIntegrates(sim: Sim, i: nat)
    requires Separated(Positions(sim.nodes)) && MassSplittable(Masses(sim.nodes), sim.edges)
    requires Step(sim).Ok? && i < |sim.nodes|
    ensures var fs := Forces(Positions(sim.nodes), Masses(sim.nodes), sim.edges, sim.coeff);
            var n := Step(sim).value.nodes[i];
            n.force == fs[i]
            && State(n.pos, n.velocity)
               == Integrate(State(sim.nodes[i].pos, sim.nodes[i].velocity), fs[i], sim.coeff.dampening)
  {
  }

  /**
   * Gravity, attraction and repulsion together: the attraction loop keeps the
   * mass-weighted total of the gravity forces, and the repulsion loop keeps the
   * plain total of what it starts from.
   */
  lemma ForceBalance(ps: seq<Vec3>, ms: seq<real>, edges: seq<Adjacency.Edge>, c: Coefficients)
    requires |ps| == |ms| && Separated(ps) && MassSplittable(ms, edges)
    requires forall k :: 0 <= k < |edges| ==> Adjacency.InRange(edges[k], |ps|)
    ensures Sum(Weighted(ms, AttractAll(Gravities(ps, c.gravity), ps, ms, edges, c.attraction)))
            == Sum(Weighted(ms, Gravities(ps, c.gravity)))
    ensures Sum(Forces(ps, ms, edges, c)) == Sum(AttractAll(Gravities(ps, c.gravity), ps, ms, edges, c.attraction))
  {
    var g := Gravities(ps, c.gravity);
    AttractAllBalanced(g, ps, ms, edges, c.attraction);
    RepelOuterBalanced(AttractAll(g, ps, ms, edges, c.attraction), ps, 0, c.repulsion);
  }

  /** One animation frame of `play()`: a step only while not paused. */
  function Frame(sim: Sim): (r: Result<Sim, Adjacency.BuildError>)
    requires Separated(Positions(sim.nodes)) && MassSplittable(Masses(sim.nodes), sim.edges)
    ensures sim.paused ==> r == Ok(sim)
    ensures !sim.paused ==> r == Step(sim)
  {
    if sim.paused then Ok(sim) else Step(sim)
  }
}
