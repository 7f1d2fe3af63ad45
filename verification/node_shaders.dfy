/**
 * The node vertex shaders, `Spheres` (the one the mesh shows) and `Points`:
 * each pulls its node's state from the mesh textures, decodes the flags and
 * decides the node's colour, opacity, size and depth bias. Projection,
 * lighting and the screen-size factor `pixelSizeAt(...)` are not modelled;
 * the latter is the parameter `pixelSize`.
 */
module NodeShaders {
  import opened Vectors
  import opened NodeFlags
  import LatticeMesh

  const White: Vec3 := Vec3(1.0, 1.0, 1.0)

  /** Hovered or highlighted nodes are drawn white and in front. */
  predicate Emphasised(f: Flags) {
    f.hovered || f.highlighted
  }

  datatype SphereVertex = SphereVertex(colour: Vec3, opacity: real, radius: real, depthBias: real)

  /** The colour and opacity branch of the `Spheres` vertex shader. */
  function SphereLook(f: Flags, nodeColour: Vec3, anyHighlighted: bool): (r: (Vec3, real))
    ensures Emphasised(f) ==> r == (White, 1.0)
    ensures !Emphasised(f) ==> r.0 == nodeColour
    ensures r.1 == 0.1 <==> anyHighlighted && !Emphasised(f)
    ensures r.1 == 1.0 || r.1 == 0.1
  {
    if f.hovered || f.highlighted then (White, 1.0)
    else if anyHighlighted then (nodeColour, 0.1)
    else (nodeColour, 1.0)
  }

  /** `constantScreenSize ? nodeSize * pixelSizeAt(nodePos).x : nodeSize`. */
  function SphereRadius(nodeSize: real, pixelSize: real, constantScreenSize: bool): real {
    if constantScreenSize then nodeSize * pixelSize else nodeSize
  }

  /** The `Spheres` vertex shader for instance `nodeIndex`. */
  function Sphere(maps: LatticeMesh.Maps, nodeIndex: nat, anyHighlighted: bool,
                  constantScreenSize: bool, pixelSize: real): (v: SphereVertex)
    requires LatticeMesh.Textured(maps) && maps.position.side >= 1
    ensures var s := LatticeMesh.Pulled(maps, nodeIndex);
            var f := Decode(AsFloat(s.flags));
            (v.colour, v.opacity) == SphereLook(f, s.colour, anyHighlighted)
            && v.radius == SphereRadius(s.size, pixelSize, constantScreenSize)
            && v.depthBias == (if Emphasised(f) then -1.0 else 0.0)
  {
    var s := LatticeMesh.Pulled(maps, nodeIndex);
    var f := Decode(AsFloat(s.flags));
    var look := SphereLook(f, s.colour, anyHighlighted);
    var bias := if f.hovered || f.highlighted then -1.0 else 0.0;
    SphereVertex(look.0, look.1, SphereRadius(s.size, pixelSize, constantScreenSize), bias)
  }

  /**
   * End to end: when the flags texel holds node `i`'s mask, its sphere is white,
   * opaque and pulled in front exactly when the node is hovered or highlighted;
   * otherwise it shows the node's stored colour, dimmed to 0.1 only while some
   * node is highlighted.
   */
  lemma SphereFollowsGraph(maps: LatticeMesh.Maps, node: LatticeMesh.Node, i: nat,
                           anyHighlighted: bool, constantScreenSize: bool, pixelSize: real)
    requires LatticeMesh.Textured(maps) && maps.position.side >= 1
    requires i < maps.position.side * maps.position.side
    requires maps.flags.data[i] == MaskOf(node.hovered, node.highlighted, node.selected)
    ensures var v := Sphere(maps, i, anyHighlighted, constantScreenSize, pixelSize);
            (node.hovered || node.highlighted ==> v.colour == White && v.opacity == 1.0 && v.depthBias == -1.0)
            && (!(node.hovered || node.highlighted) ==>
                 v.colour == LatticeMesh.StoredAt(maps, i).colour && v.depthBias == 0.0
                 && v.opacity == (if anyHighlighted then 0.1 else 1.0))
  {
    LatticeMesh.PulledIsStored(maps, i);
    DecodeRoundTrip(node.hovered, node.highlighted, node.selected);
  }

  /** An emphasised sphere is never dimmer than any other sphere. */
  lemma EmphasisedOnTop(a: Flags, b: Flags, ca: Vec3, cb: Vec3, anyHighlighted: bool)
    requires Emphasised(a)
    ensures SphereLook(a, ca, anyHighlighted).1 >= SphereLook(b, cb, anyHighlighted).1
  {
  }

  datatype PointVertex = PointVertex(colour: Vec3, pointSize: real, depthBias: real)

  /** `constantScreenSize ? nodeSize : nodeSize * pixelSizeAt(nodePos).x`. */
  function PointSize(nodeSize: real, pixelSize: real, constantScreenSize: bool): real {
    if constantScreenSize then nodeSize else nodeSize * pixelSize
  }

  /** The point-size rule is the sphere-radius rule with the flag inverted. */
  lemma PointSizeInvertsSphere(nodeSize: real, pixelSize: real, constantScreenSize: bool)
    ensures PointSize(nodeSize, pixelSize, constantScreenSize)
            == SphereRadius(nodeSize, pixelSize, !constantScreenSize)
    ensures constantScreenSize ==> PointSize(nodeSize, pixelSize, true) == nodeSize
  {
  }

  /** The `Points` vertex shader for instance `nodeIndex`. */
  function Point(maps: LatticeMesh.Maps, nodeIndex: nat, constantScreenSize: bool, pixelSize: real): (v: PointVertex)
    requires LatticeMesh.Textured(maps) && maps.position.side >= 1
    ensures var s := LatticeMesh.Pulled(maps, nodeIndex);
            var f := Decode(AsFloat(s.flags));
            (v.colour == White || v.colour == s.colour)
            && (Emphasised(f) ==> v.colour == White && v.depthBias == -100.0)
            && (!Emphasised(f) ==> v.colour == s.colour && v.depthBias == 0.0)
  {
    var s := LatticeMesh.Pulled(maps, nodeIndex);
    var f := Decode(AsFloat(s.flags));
    var colour := if f.hovered || f.highlighted then White else s.colour;
    var bias := if f.hovered || f.highlighted then -100.0 else 0.0;
    PointVertex(colour, PointSize(s.size, pixelSize, constantScreenSize), bias)
  }

  /** End to end for `Points`: white and 100 units in front iff the node is hovered or highlighted. */
  lemma PointFollowsGraph(maps: LatticeMesh.Maps, node: LatticeMesh.Node, i: nat,
                          constantScreenSize: bool, pixelSize: real)
    requires LatticeMesh.Textured(maps) && maps.position.side >= 1
    requires i < maps.position.side * maps.position.side
    requires maps.flags.data[i] == MaskOf(node.hovered, node.highlighted, node.selected)
    ensures var v := Point(maps, i, constantScreenSize, pixelSize);
            (node.hovered || node.highlighted ==> v.colour == White && v.depthBias == -100.0)
            && (!(node.hovered || node.highlighted) ==>
                 v.colour == LatticeMesh.StoredAt(maps, i).colour && v.depthBias == 0.0)
  {
    LatticeMesh.PulledIsStored(maps, i);
    DecodeRoundTrip(node.hovered, node.highlighted, node.selected);
  }
}
