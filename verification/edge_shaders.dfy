/**
 * The edge vertex shaders, `Rods` (the one the mesh shows) and `Lines`: the
 * per-instance attributes built from the links, and the highlight, colour,
 * opacity, size and depth decisions each instance makes from the node and
 * edge textures. Rod geometry (the `distance`-based scale and `lookAt`) and
 * the screen-size factor `pixelSizeAt(...)` are not modelled; the latter is a
 * parameter, and so is `-position.z`, the vertex's place along the edge.
 */
module EdgeShaders {
  import opened Vectors
  import opened NodeFlags
  import LatticeMesh

  /** GLSL `int(x)`: truncation towards zero. */
  function TruncInt(x: real): int {
    if x >= 0.0 then x.Floor else -((-x).Floor)
  }

  lemma TruncIntWhole(k: int)
    ensures TruncInt(k as real) == k
  {
  }

  /** GLSL `mix(a, b, t) = a * (1 - t) + b * t`. */
  function Mix(a: Vec3, b: Vec3, t: real): Vec3 {
    Add(Scale(a, 1.0 - t), Scale(b, t))
  }

  /**
   * The instance attributes of `Rods`: `edgeIndex = i` and the source and target
   * node indices of `links[i]`, each as a float (node counts stay far below
   * 2^24, where a 32-bit float holds every integer exactly).
   */
  datatype RodInstance = RodInstance(edgeIndex: real, source: real, target: real)

  function RodInstances(links: seq<LatticeMesh.Edge>): (r: seq<RodInstance>)
    ensures |r| == |links|
    ensures forall i :: 0 <= i < |links| ==>
              TruncInt(r[i].edgeIndex) == i && TruncInt(r[i].source) == links[i].source
              && TruncInt(r[i].target) == links[i].target
  {
    var r := seq(|links|, i requires 0 <= i < |links| =>
      RodInstance(i as real, links[i].source as real, links[i].target as real));
    forall i | 0 <= i < |links|
      ensures TruncInt(r[i].edgeIndex) == i && TruncInt(r[i].source) == links[i].source
              && TruncInt(r[i].target) == links[i].target {
      TruncIntWhole(i);
      TruncIntWhole(links[i].source);
      TruncIntWhole(links[i].target);
    }
    r
  }

  /** Edge `edgeIndex` of the edge textures, with the opacity texture's width as `edgeColumns`. */
  function PulledOpacity(maps: LatticeMesh.Maps, edgeIndex: nat): real
    requires LatticeMesh.Textured(maps) && maps.edgeOpacity.side >= 1
  {
    LatticeMesh.PullFloat(maps.edgeOpacity.data, maps.edgeOpacity.side, edgeIndex)
  }

  /** An edge is highlighted when both of its endpoints are. */
  function EdgeHighlighted(maps: LatticeMesh.Maps, source: nat, target: nat): bool
    requires LatticeMesh.Textured(maps) && maps.position.side >= 1
  {
    Decode(AsFloat(LatticeMesh.Pulled(maps, source).flags)).highlighted
    && Decode(AsFloat(LatticeMesh.Pulled(maps, target).flags)).highlighted
  }

  datatype RodVertex = RodVertex(highlighted: bool, colour: Vec3, opacity: real,
                                 sourceSize: real, targetSize: real, depthBias: real)

  /** The opacity branch of `Rods`. */
  function RodOpacity(highlighted: bool, anyNodeHighlighted: bool, edgeOpacity: real): (o: real)
    ensures highlighted ==> o == edgeOpacity
    ensures !highlighted && anyNodeHighlighted ==> o == edgeOpacity * 0.1
    ensures !highlighted && !anyNodeHighlighted ==> o == edgeOpacity
  {
    if highlighted then edgeOpacity
    else if anyNodeHighlighted then edgeOpacity * 0.1
    else edgeOpacity
  }

  /** A rod is dimmed exactly while some node but not both of its ends are highlighted. */
  lemma RodDimming(highlighted: bool, anyNodeHighlighted: bool, edgeOpacity: real)
    requires edgeOpacity > 0.0
    ensures RodOpacity(highlighted, anyNodeHighlighted, edgeOpacity) <= edgeOpacity
    ensures RodOpacity(highlighted, anyNodeHighlighted, edgeOpacity) < edgeOpacity
            <==> anyNodeHighlighted && !highlighted
  {
  }

  /** The `Rods` vertex shader, given the two endpoints' texels and the edge's opacity. */
  function RodOf(s: LatticeMesh.Stored, d: LatticeMesh.Stored, edgeOpacity: real, t: real,
                 anyNodeHighlighted: bool, gap: real, nodeConstantScreenSize: bool,
                 sourcePixel: real, targetPixel: real): (v: RodVertex)
    ensures v.highlighted == (Decode(AsFloat(s.flags)).highlighted && Decode(AsFloat(d.flags)).highlighted)
    ensures v.colour == Mix(s.colour, d.colour, t)
    ensures v.opacity == RodOpacity(v.highlighted, anyNodeHighlighted, edgeOpacity)
    ensures v.depthBias == (if v.highlighted then -1.0 else 0.0)
    ensures !nodeConstantScreenSize ==>
              v.sourceSize == s.size * (1.0 + gap) && v.targetSize == d.size * (1.0 + gap)
  {
    var highlighted := Decode(AsFloat(s.flags)).highlighted && Decode(AsFloat(d.flags)).highlighted;
    var sourceSize := s.size * (1.0 + gap);
    var targetSize := d.size * (1.0 + gap);
    RodVertex(highlighted, Mix(s.colour, d.colour, t), RodOpacity(highlighted, anyNodeHighlighted, edgeOpacity),
              if nodeConstantScreenSize then sourceSize * sourcePixel else sourceSize,
              if nodeConstantScreenSize then targetSize * targetPixel else targetSize,
              if highlighted then -1.0 else 0.0)
  }

  /** The `Rods` vertex shader for one vertex of instance `(edgeIndex, source, target)`. */
  function Rod(maps: LatticeMesh.Maps, edgeIndex: nat, source: nat, target: nat, t: real,
               anyNodeHighlighted: bool, gap: real, nodeConstantScreenSize: bool,
               sourcePixel: real, targetPixel: real): RodVertex
    requires LatticeMesh.Textured(maps) && maps.position.side >= 1 && maps.edgeOpacity.side >= 1
  {
    RodOf(LatticeMesh.Pulled(maps, source), LatticeMesh.Pulled(maps, target), PulledOpacity(maps, edgeIndex),
          t, anyNodeHighlighted, gap, nodeConstantScreenSize, sourcePixel, targetPixel)
  }

  /**
   * End to end for `Rods`: with both endpoints' flags texels in step with the
   * graph, the rod is highlighted (full opacity, 1 unit in front) exactly when
   * both endpoint nodes are highlighted.
   */
  lemma RodFollowsGraph(maps: LatticeMesh.Maps, edgeIndex: nat, source: nat, target: nat,
                        a: LatticeMesh.Node, b: LatticeMesh.Node, t: real, anyNodeHighlighted: bool,
                        gap: real, nodeConstantScreenSize: bool, sourcePixel: real, targetPixel: real)
    requires LatticeMesh.Textured(maps) && maps.position.side >= 1 && maps.edgeOpacity.side >= 1
    requires source < maps.position.side * maps.position.side
    requires target < maps.position.side * maps.position.side
    requires maps.flags.data[source] == MaskOf(a.hovered, a.highlighted, a.selected)
    requires maps.flags.data[target] == MaskOf(b.hovered, b.highlighted, b.selected)
    requires edgeIndex < maps.edgeOpacity.side * maps.edgeOpacity.side
    ensures var v := Rod(maps, edgeIndex, source, target, t, anyNodeHighlighted, gap,
                         nodeConstantScreenSize, sourcePixel, targetPixel);
            v.highlighted == (a.highlighted && b.highlighted)
            && (v.highlighted ==> v.opacity == maps.edgeOpacity.data[edgeIndex] && v.depthBias == -1.0)
  {
    LatticeMesh.PulledIsStored(maps, source);
    LatticeMesh.PulledIsStored(maps, target);
    DecodeRoundTrip(a.hovered, a.highlighted, a.selected);
    DecodeRoundTrip(b.hovered, b.highlighted, b.selected);
  }

  /** `Uint16Array` storage: the integer modulo 2^16. */
  function Uint16(v: int): (r: int)
    ensures 0 <= r < 65536
    ensures 0 <= v < 65536 ==> r == v
  {
    v % 65536
  }

  /** `links.flatMap(link => [link.source, link.target])`, stored in a `Uint16Array`. */
  function LineIndices(links: seq<LatticeMesh.Edge>): (r: seq<int>)
    ensures |r| == 2 * |links|
    ensures forall i :: 0 <= i < |links| ==>
              r[2 * i] == Uint16(links[i].source) && r[2 * i + 1] == Uint16(links[i].target)
    decreases |links|
  {
    if |links| == 0 then []
    else
      var n := |links| - 1;
      var r := LineIndices(links[..n]) + [Uint16(links[n].source), Uint16(links[n].target)];
      assert forall i :: 0 <= i < n ==> links[..n][i] == links[i];
      r
  }

  /**
   * The `indices` attribute gives every instance its own link's endpoints back
   * when they lie below 2^16; an unknown endpoint (-1) wraps to 65535.
   */
  lemma LineIndicesRecover(links: seq<LatticeMesh.Edge>, i: nat)
    requires i < |links|
    ensures 0 <= links[i].source < 65536 ==> LineIndices(links)[2 * i] == links[i].source
    ensures 0 <= links[i].target < 65536 ==> LineIndices(links)[2 * i + 1] == links[i].target
    ensures links[i].source == -1 ==> LineIndices(links)[2 * i] == 65535
  {
  }

  const Grey: Vec3 := Vec3(0.5, 0.5, 0.5)

  datatype LineVertex = LineVertex(highlighted: bool, colour: Vec3, opacity: real, depthBias: real)

  /** The `Lines` vertex shader for one vertex of instance `(edgeIndex, source, target)`. */
  function Line(maps: LatticeMesh.Maps, edgeIndex: nat, source: nat, target: nat, t: real): (v: LineVertex)
    requires LatticeMesh.Textured(maps) && maps.position.side >= 1 && maps.edgeOpacity.side >= 1
    ensures v.highlighted == EdgeHighlighted(maps, source, target)
    ensures v.highlighted ==> v.colour == Grey && v.opacity == 1.0 && v.depthBias == -100.0
    ensures !v.highlighted ==>
              v.colour == Mix(LatticeMesh.Pulled(maps, source).colour, LatticeMesh.Pulled(maps, target).colour, t)
              && v.opacity == PulledOpacity(maps, edgeIndex) && v.depthBias == 0.0
  {
    var highlighted := EdgeHighlighted(maps, source, target);
    if highlighted then LineVertex(true, Grey, 1.0, -100.0)
    else
      LineVertex(false, Mix(LatticeMesh.Pulled(maps, source).colour, LatticeMesh.Pulled(maps, target).colour, t),
                 PulledOpacity(maps, edgeIndex), 0.0)
  }

  /** End to end for `Lines`: grey, opaque and 100 units in front iff both endpoint nodes are highlighted. */
  lemma LineFollowsGraph(maps: LatticeMesh.Maps, edgeIndex: nat, source: nat, target: nat,
                         a: LatticeMesh.Node, b: LatticeMesh.Node, t: real)
    requires LatticeMesh.Textured(maps) && maps.position.side >= 1 && maps.edgeOpacity.side >= 1
    requires source < maps.position.side * maps.position.side
    requires target < maps.position.side * maps.position.side
    requires maps.flags.data[source] == MaskOf(a.hovered, a.highlighted, a.selected)
    requires maps.flags.data[target] == MaskOf(b.hovered, b.highlighted, b.selected)
    ensures var v := Line(maps, edgeIndex, source, target, t);
            v.highlighted == (a.highlighted && b.highlighted)
            && (a.highlighted && b.highlighted ==> v.colour == Grey && v.opacity == 1.0 && v.depthBias == -100.0)
  {
    LatticeMesh.PulledIsStored(maps, source);
    LatticeMesh.PulledIsStored(maps, target);
    DecodeRoundTrip(a.hovered, a.highlighted, a.selected);
    DecodeRoundTrip(b.hovered, b.highlighted, b.selected);
  }
}
