/**
 * The graph component's own logic: the simulation it builds from the graph,
 * the play/pause guard of its animation loop, the step that copies simulated
 * positions back into the graph and the mesh textures, and the node-flag
 * updates of `setSelection`. The renderer, camera, labels and controls it
 * wires together are not modelled here.
 */
module GraphComponent {
  import opened Wrappers
  import opened Vectors
  import Physics
  import Adjacency
  import Simulation
  import LatticeMesh

  /**
   * The mesh (whose `graph` is the component's graph, shared), the
   * simulation, `paused`, `needsRender`, and the canvas-label overlay's CSS
   * opacity.
   */
  datatype Component = Component(mesh: LatticeMesh.Mesh, sim: Simulation.Sim, paused: bool,
                                 needsRender: bool, canvasOpacity: real)

  // ---------------------------------------------------------------------
  // the simulation input

  /** The engine's coefficients, as literals: attraction, repulsion, gravity, dampening. */
  const Coefficients := Physics.Coefficients(0.0005, -0.15, 0.005, 0.9)

  /** `edge.width || 1.0`: a zero width counts as missing. */
  function WidthOrOne(w: real): (r: real)
    ensures r != 0.0
    ensures w != 0.0 ==> r == w
  {
    if w == 0.0 then 1.0 else w
  }

  /** Each graph node as a simulation node: its position, at rest, with its size as mass. */
  function SimulationNodes(nodes: seq<LatticeMesh.Node>): (r: seq<Simulation.Node>)
    ensures |r| == |nodes|
    ensures forall i :: 0 <= i < |nodes| ==>
              r[i] == Simulation.Node(nodes[i].pos, Zero, Zero, nodes[i].size)
  {
    seq(|nodes|, i requires 0 <= i < |nodes| => Simulation.Node(nodes[i].pos, Zero, Zero, nodes[i].size))
  }

  /** Each graph edge as a simulation edge, same endpoints, weighted by its width or 1. */
  function SimulationEdges(edges: seq<LatticeMesh.Edge>): (r: seq<Adjacency.Edge>)
    ensures |r| == |edges|
    ensures forall k :: 0 <= k < |edges| ==>
              r[k] == Adjacency.Edge(edges[k].source, edges[k].target, WidthOrOne(edges[k].width))
  {
    seq(|edges|, k requires 0 <= k < |edges| =>
      Adjacency.Edge(edges[k].source, edges[k].target, WidthOrOne(edges[k].width)))
  }

  /** Edge `k`'s endpoints both index a node of the graph. */
  predicate Joins(g: LatticeMesh.Graph, k: nat)
    requires k < |g.edges|
  {
    0 <= g.edges[k].source < |g.nodes| && 0 <= g.edges[k].target < |g.nodes|
  }

  /**
   * The constructor. It first fills its own adjacency array with
   * `adj[source][target]` and `adj[target][source]`, which throws at the
   * first edge with an endpoint outside the node list (`adj[i]` is then
   * undefined). Otherwise: the mesh built from the graph, the simulation
   * built from it, paused, and due for a first render.
   */
  function Create(g: LatticeMesh.Graph, fr: real -> real): (r: Result<Component, Adjacency.BuildError>)
    ensures r.Ok? <==> forall k :: 0 <= k < |g.edges| ==> Joins(g, k)
    ensures r.Err? ==> r.error.edge < |g.edges| && !Joins(g, r.error.edge)
                       && forall l :: 0 <= l < r.error.edge ==> Joins(g, l)
    ensures r.Ok? ==> r.value.paused && r.value.needsRender && r.value.canvasOpacity == 1.0
    ensures r.Ok? ==> r.value.mesh == LatticeMesh.Create(g, fr)
  {
    var edges := SimulationEdges(g.edges);
    assert forall k :: 0 <= k < |g.edges| ==> (Adjacency.InRange(edges[k], |g.nodes|) <==> Joins(g, k));
    match Adjacency.BuildAdjacency(|g.nodes|, edges)
    case Err(e) => Err(e)
    case Ok(_) =>
      Ok(Component(LatticeMesh.Create(g, fr),
                   Simulation.Create(SimulationNodes(g.nodes), edges, Coefficients),
                   true, true, 1.0))
  }

  /**
   * The simulation starts where the graph is: node positions, masses equal
   * to node sizes, no velocity; edges keep their endpoints, which all index
   * a node, and no edge weight is zero.
   */
  lemma SimulationStartsAtGraph(g: LatticeMesh.Graph, fr: real -> real)
    ensures Create(g, fr).Ok? ==>
            var s := Create(g, fr).value.sim;
            Simulation.Positions(s.nodes) == LatticeMesh.Positions(g.nodes)
            && Simulation.Masses(s.nodes) == LatticeMesh.Sizes(g.nodes)
            && (forall i :: 0 <= i < |s.nodes| ==> s.nodes[i].velocity == Zero)
            && |s.edges| == |g.edges|
            && (forall k :: 0 <= k < |s.edges| ==>
                  s.edges[k].source == g.edges[k].source && s.edges[k].target == g.edges[k].target
                  && s.edges[k].weight != 0.0 && Adjacency.InRange(s.edges[k], |s.nodes|))
            && s.coeff == Physics.Coefficients(0.0005, -0.15, 0.005, 0.9)
  {
  }

  // ---------------------------------------------------------------------
  // play / pause

  function Play(c: Component): (r: Component)
    ensures !r.paused && r == c.(paused := false)
  {
    c.(paused := false)
  }

  function Pause(c: Component): (r: Component)
    ensures r.paused && r == c.(paused := true)
  {
    c.(paused := true)
  }

  // ---------------------------------------------------------------------
  // stepSimulation

  /** Why `stepSimulation` throws. */
  datatype StepError =
    | SimulationFailed(cause: Adjacency.BuildError)   // the engine's `step` threw
    | NodeMissing                                      // more simulation nodes than graph nodes

  /** The preconditions of the engine's step: no coincident nodes, every evaluated edge has a non-zero mass sum. */
  predicate Steppable(s: Simulation.Sim) {
    Separated(Simulation.Positions(s.nodes))
    && Simulation.MassSplittable(Simulation.Masses(s.nodes), s.edges)
  }

  /** A position-only patch entry. */
  function PositionOnly(p: Vec3): LatticeMesh.NodeChange {
    LatticeMesh.NodeChange(Some(p), None, None, None, None)
  }

  /** The node map of the patch: `i -> {x, y, z}` for every simulated node, in index order. */
  function PositionChanges(ps: seq<Vec3>, k: nat): (r: seq<(nat, LatticeMesh.NodeChange)>)
    requires k <= |ps|
    ensures LatticeMesh.Increasing(r)
    ensures forall a :: 0 <= a < |r| ==> r[a].0 < k
    ensures forall i :: 0 <= i < k ==> LatticeMesh.Lookup(r, i) == Some(PositionOnly(ps[i]))
    ensures forall i :: k <= i ==> LatticeMesh.Lookup(r, i) == None
    decreases k
  {
    if k == 0 then []
    else
      var prev := PositionChanges(ps, k - 1);
      LatticeMesh.LookupAppendAll(prev, k - 1, PositionOnly(ps[k - 1]));
      prev + [(k - 1, PositionOnly(ps[k - 1]))]
  }

  /** The copy loop: node `i` of the graph takes position `ps[i]`, for every `i` below `|ps|`. */
  function CopyPositions(nodes: seq<LatticeMesh.Node>, ps: seq<Vec3>): (r: seq<LatticeMesh.Node>)
    requires |ps| <= |nodes|
    ensures |r| == |nodes|
    ensures forall i :: 0 <= i < |nodes| ==> r[i] == if i < |ps| then nodes[i].(pos := ps[i]) else nodes[i]
  {
    seq(|nodes|, i requires 0 <= i < |nodes| => if i < |ps| then nodes[i].(pos := ps[i]) else nodes[i])
  }

  /**
   * `stepSimulation`: step the engine, copy every simulated position into the
   * graph, then patch the mesh with every node's position and no edge.
   */
  function StepSimulation(c: Component, fr: real -> real): (r: Result<Component, StepError>)
    requires Steppable(c.sim)
    ensures r.Ok? <==> Simulation.Step(c.sim).Ok? && |c.sim.nodes| <= |c.mesh.graph.nodes|
    ensures r.Ok? ==> r.value.sim == Simulation.Step(c.sim).value && r.value.needsRender
                      && r.value.paused == c.paused && r.value.canvasOpacity == c.canvasOpacity
    ensures r.Ok? ==> r.value.mesh.graph.edges == c.mesh.graph.edges
                      && r.value.mesh.anyHighlighted == c.mesh.anyHighlighted
    ensures r.Ok? ==> |r.value.mesh.graph.nodes| == |c.mesh.graph.nodes|
                      && forall i :: 0 <= i < |c.mesh.graph.nodes| ==>
                           r.value.mesh.graph.nodes[i]
                           == if i < |c.sim.nodes| then c.mesh.graph.nodes[i].(pos := r.value.sim.nodes[i].pos)
                              else c.mesh.graph.nodes[i]
  {
    match Simulation.Step(c.sim)
    case Err(e) => Err(SimulationFailed(e))
    case Ok(s) =>
      if |s.nodes| > |c.mesh.graph.nodes| then Err(NodeMissing)
      else
        var ps := Simulation.Positions(s.nodes);
        var m := c.mesh.(graph := c.mesh.graph.(nodes := CopyPositions(c.mesh.graph.nodes, ps)));
        var patched := LatticeMesh.Patch(m, fr, LatticeMesh.Changes(PositionChanges(ps, |ps|), []));
        Ok(c.(mesh := patched, sim := s, needsRender := true))
  }

  /**
   * After a step, the textures hold the rounded simulated position of every
   * simulated node, so `diff` reports no position for it; its colour, size
   * and flags are untouched, and so is every other node.
   */
  lemma StepSimulationSyncsTextures(c: Component, fr: real -> real, i: nat)
    requires Steppable(c.sim) && StepSimulation(c, fr).Ok?
    requires i < |c.mesh.graph.nodes| && LatticeMesh.HoldsNode(c.mesh.maps, i)
    ensures var r := StepSimulation(c, fr).value;
            var before := LatticeMesh.StoredAt(c.mesh.maps, i);
            LatticeMesh.HoldsNode(r.mesh.maps, i)
            && LatticeMesh.StoredAt(r.mesh.maps, i)
               == (if i < |c.sim.nodes| then before.(pos := LatticeMesh.RoundVec(fr, r.sim.nodes[i].pos)) else before)
            && (i < |c.sim.nodes| ==> LatticeMesh.NodeDiff(r.mesh.maps, fr, r.mesh.graph.nodes[i], i).pos.None?)
  {
    var s := Simulation.Step(c.sim).value;
    var ps := Simulation.Positions(s.nodes);
    var m := c.mesh.(graph := c.mesh.graph.(nodes := CopyPositions(c.mesh.graph.nodes, ps)));
    var r := StepSimulation(c, fr).value;
    assert r.mesh == LatticeMesh.Patch(m, fr, LatticeMesh.Changes(PositionChanges(ps, |ps|), []));
    PositionPatch(m, fr, ps, i);
  }

  /** Patching every position of `ps` writes node `i`'s rounded position and nothing else of it. */
  lemma PositionPatch(m: LatticeMesh.Mesh, fr: real -> real, ps: seq<Vec3>, i: nat)
    requires LatticeMesh.HoldsNode(m.maps, i)
    ensures var p := LatticeMesh.Patch(m, fr, LatticeMesh.Changes(PositionChanges(ps, |ps|), []));
            var before := LatticeMesh.StoredAt(m.maps, i);
            LatticeMesh.HoldsNode(p.maps, i)
            && LatticeMesh.StoredAt(p.maps, i)
               == (if i < |ps| then before.(pos := LatticeMesh.RoundVec(fr, ps[i])) else before)
  {
    var d := LatticeMesh.Changes(PositionChanges(ps, |ps|), []);
    LatticeMesh.IncreasingDistinct(d.nodes);
    LatticeMesh.PatchStored(m, fr, d, i);
  }

  // ---------------------------------------------------------------------
  // animate

  /**
   * One frame of `animate`: a simulation step unless paused, then the render,
   * which clears `needsRender`.
   */
  function Animate(c: Component, fr: real -> real): (r: Result<Component, StepError>)
    requires !c.paused ==> Steppable(c.sim)
    ensures r.Ok? ==> !r.value.needsRender && r.value.paused == c.paused
  {
    if c.paused then Ok(c.(needsRender := false))
    else
      match StepSimulation(c, fr)
      case Err(e) => Err(e)
      case Ok(stepped) => Ok(stepped.(needsRender := false))
  }

  /** Frames while paused never step: mesh, graph and simulation stay as they were. */
  lemma PausedFrameIdle(c: Component, fr: real -> real)
    ensures var r := Animate(Pause(c), fr);
            r.Ok? && r.value.mesh == c.mesh && r.value.sim == c.sim
  {
  }

  /** A frame after `play` steps the simulation once and moves the graph to its positions. */
  lemma PlayedFrameSteps(c: Component, fr: real -> real, i: nat)
    requires Steppable(c.sim) && StepSimulation(c, fr).Ok?
    requires i < |c.sim.nodes|
    ensures var r := Animate(Play(c), fr);
            r.Ok? && r.value.sim == Simulation.Step(c.sim).value
            && r.value.mesh.graph.nodes[i].pos == Simulation.Step(c.sim).value.nodes[i].pos
  {
    assert StepSimulation(Play(c), fr) == StepSimulation(c, fr).(value := StepSimulation(c, fr).value.(paused := false));
  }

  /** A fresh component stays where the graph put it until `play`: its first frame does not step. */
  lemma CreatedWaitsForPlay(g: LatticeMesh.Graph, fr: real -> real)
    ensures Create(g, fr).Ok? ==>
            var c := Create(g, fr).value;
            Animate(c, fr) == Ok(c.(needsRender := false))
  {
  }

  // ---------------------------------------------------------------------
  // setSelection

  /** `indexOfNode(id)` names a node: not -1 and inside the node list. */
  predicate Known(m: LatticeMesh.Mesh, n: nat, id: string) {
    0 <= LatticeMesh.IndexOfNode(m, id) < n
  }

  /** Whether some id among the first `stop` resolves to node `i`. */
  predicate Named(m: LatticeMesh.Mesh, ids: seq<string>, stop: nat, i: nat) {
    exists k :: 0 <= k < stop && k < |ids| && LatticeMesh.IndexOfNode(m, ids[k]) == i
  }

  /**
   * The selection loop: highlight the node of each id in order; an id that
   * resolves to no node (`nodes[-1]` is undefined) throws, and its position
   * is returned.
   */
  function HighlightIds(m: LatticeMesh.Mesh, nodes: seq<LatticeMesh.Node>, ids: seq<string>)
    : (r: (seq<LatticeMesh.Node>, Option<nat>))
    ensures |r.0| == |nodes|
    ensures r.1.None? <==> forall k :: 0 <= k < |ids| ==> Known(m, |nodes|, ids[k])
    ensures r.1.Some? ==> r.1.value < |ids| && !Known(m, |nodes|, ids[r.1.value])
                          && forall k :: 0 <= k < r.1.value ==> Known(m, |nodes|, ids[k])
    ensures var stop := if r.1.Some? then r.1.value else |ids|;
            forall i :: 0 <= i < |nodes| ==>
              r.0[i] == nodes[i].(highlighted := nodes[i].highlighted || Named(m, ids, stop, i))
    decreases |ids|
  {
    if |ids| == 0 then (nodes, None)
    else
      var init := ids[..|ids| - 1];
      var r := HighlightIds(m, nodes, init);
      assert forall k :: 0 <= k < |init| ==> init[k] == ids[k];
      if r.1.Some? then
        NamedPrefix(m, ids, r.1.value);
        r
      else
        var j := LatticeMesh.IndexOfNode(m, ids[|ids| - 1]);
        if 0 <= j < |nodes| then
          NamedLast(m, ids);
          (r.0[j := r.0[j].(highlighted := true)], None)
        else
          NamedPrefix(m, ids, |ids| - 1);
          (r.0, Some(|ids| - 1))
  }

  /** Resolving only the first `stop` ids does not depend on the ids after them. */
  lemma NamedPrefix(m: LatticeMesh.Mesh, ids: seq<string>, stop: nat)
    requires stop < |ids|
    ensures forall i :: Named(m, ids[..|ids| - 1], stop, i) <==> Named(m, ids, stop, i)
  {
    assert forall k :: 0 <= k < |ids| - 1 ==> ids[..|ids| - 1][k] == ids[k];
  }

  /** A node is named by all the ids exactly when the earlier ids or the last one name it. */
  lemma NamedLast(m: LatticeMesh.Mesh, ids: seq<string>)
    requires |ids| > 0
    ensures forall i :: Named(m, ids, |ids|, i)
                        <==> Named(m, ids[..|ids| - 1], |ids| - 1, i) || LatticeMesh.IndexOfNode(m, ids[|ids| - 1]) == i
  {
    var init := ids[..|ids| - 1];
    assert forall k :: 0 <= k < |init| ==> init[k] == ids[k];
    forall i | LatticeMesh.IndexOfNode(m, ids[|ids| - 1]) == i
      ensures Named(m, ids, |ids|, i)
    {
      assert LatticeMesh.IndexOfNode(m, ids[|ids| - 1]) == i;
    }
  }

  /** Why `setSelection` throws: an unknown id, or the label mesh it dereferences does not exist. */
  datatype SelectionError = UnknownNode(id: string) | NoLabelMesh

  /** Every node with `highlighted` cleared, as the first loop of `setSelection` leaves them. */
  function Cleared(nodes: seq<LatticeMesh.Node>): (r: seq<LatticeMesh.Node>)
    ensures |r| == |nodes| && forall i :: 0 <= i < |nodes| ==> r[i] == nodes[i].(highlighted := false)
  {
    seq(|nodes|, i requires 0 <= i < |nodes| => nodes[i].(highlighted := false))
  }

  /**
   * `setSelection(nodeIds)`. It always throws: either at an unknown id, or
   * when it reaches the label mesh's uniform, which the mesh does not have;
   * so the patch of the textures that follows never runs. The state returned
   * is what the flags, the `anyHighlighted` uniform and the canvas opacity
   * hold when it throws. Any list, even an empty one, is truthy.
   */
  function SetSelection(c: Component, nodeIds: Option<seq<string>>): (r: (Component, SelectionError))
    ensures r.0.mesh.maps == c.mesh.maps && r.0.mesh.nodeKeys == c.mesh.nodeKeys
    ensures r.0.mesh.graph.edges == c.mesh.graph.edges
    ensures r.0.sim == c.sim && r.0.paused == c.paused
    ensures |r.0.mesh.graph.nodes| == |c.mesh.graph.nodes|
    ensures forall i :: 0 <= i < |c.mesh.graph.nodes| ==>
              r.0.mesh.graph.nodes[i] == c.mesh.graph.nodes[i].(highlighted := r.0.mesh.graph.nodes[i].highlighted)
    ensures nodeIds.None? ==> r.1 == NoLabelMesh && !r.0.mesh.anyHighlighted && r.0.canvasOpacity == 1.0
                              && forall i :: 0 <= i < |c.mesh.graph.nodes| ==> !r.0.mesh.graph.nodes[i].highlighted
    ensures r.1.NoLabelMesh? && nodeIds.Some? ==> r.0.mesh.anyHighlighted && r.0.canvasOpacity == 0.2
    ensures r.1.UnknownNode? ==> r.0.mesh.anyHighlighted == c.mesh.anyHighlighted
                                 && r.0.canvasOpacity == c.canvasOpacity
  {
    var cleared := Cleared(c.mesh.graph.nodes);
    match nodeIds
    case None =>
      var g := c.mesh.graph.(nodes := cleared);
      (c.(mesh := c.mesh.(graph := g, anyHighlighted := false), canvasOpacity := 1.0), NoLabelMesh)
    case Some(ids) =>
      var h := HighlightIds(c.mesh, cleared, ids);
      var g := c.mesh.graph.(nodes := h.0);
      if h.1.Some? then
        (c.(mesh := c.mesh.(graph := g)), UnknownNode(ids[h.1.value]))
      else
        (c.(mesh := c.mesh.(graph := g, anyHighlighted := true), canvasOpacity := 0.2), NoLabelMesh)
  }

  /**
   * With unique node keys and every id a node's key, exactly the nodes whose
   * keys are listed end up highlighted, whatever was highlighted before.
   */
  lemma SelectionHighlightsExactly(c: Component, ids: seq<string>)
    requires c.mesh.nodeKeys == LatticeMesh.NodeKeys(c.mesh.graph.nodes)
    requires LatticeMesh.Distinct(c.mesh.nodeKeys)
    requires forall k :: 0 <= k < |ids| ==> ids[k] in c.mesh.nodeKeys
    ensures var r := SetSelection(c, Some(ids));
            r.1 == NoLabelMesh && r.0.mesh.anyHighlighted
            && forall i :: 0 <= i < |c.mesh.graph.nodes| ==>
                 (r.0.mesh.graph.nodes[i].highlighted <==> c.mesh.graph.nodes[i].key in ids)
  {
    var nodes := c.mesh.graph.nodes;
    var h := HighlightIds(c.mesh, Cleared(nodes), ids);
    assert h.1.None?;
    forall i | 0 <= i < |nodes|
      ensures Named(c.mesh, ids, |ids|, i) <==> nodes[i].key in ids
    {
      if nodes[i].key in ids {
        var k :| 0 <= k < |ids| && ids[k] == nodes[i].key;
        LatticeMesh.IndexOfDistinct(c.mesh.nodeKeys, i);
        assert LatticeMesh.IndexOfNode(c.mesh, ids[k]) == i;
      }
    }
  }

  /**
   * The first unknown id stops the loop: the nodes of the ids before it stay
   * highlighted, nothing else is, and `anyHighlighted` is not updated.
   */
  lemma UnknownIdStops(c: Component, ids: seq<string>, stop: nat)
    requires stop < |ids| && ids[stop] !in c.mesh.nodeKeys
    requires forall k :: 0 <= k < stop ==> Known(c.mesh, |c.mesh.graph.nodes|, ids[k])
    ensures var r := SetSelection(c, Some(ids));
            r.1 == UnknownNode(ids[stop]) && r.0.mesh.anyHighlighted == c.mesh.anyHighlighted
            && forall i :: 0 <= i < |c.mesh.graph.nodes| ==>
                 (r.0.mesh.graph.nodes[i].highlighted <==> Named(c.mesh, ids, stop, i))
  {
    var h := HighlightIds(c.mesh, Cleared(c.mesh.graph.nodes), ids);
    assert !Known(c.mesh, |c.mesh.graph.nodes|, ids[stop]);
    assert h.1 == Some(stop);
  }
}
