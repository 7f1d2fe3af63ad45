/**
 * The bitmap labels: the vertical layout that stacks every label's text on one
 * canvas, the bounding box that sizes that canvas, the ribbon geometry's index
 * buffer, and the per-fragment colour rule. Text measurement is a parameter
 * (each label's left and right extent), and so are the fog factor and the
 * glyph coverage a fragment samples.
 */
module BMLabels {
  import opened Wrappers
  import opened Vectors
  import opened NodeFlags
  import EdgeShaders
  import LatticeMesh

  /** The gap left below every label's baseline, in canvas pixels. */
  const Margin: real := 10.0

  /** `THREE.Box2`, as its four bounds. */
  datatype Box = Box(minX: real, minY: real, maxX: real, maxY: real)

  /** The sum of a sequence, summed left to right. */
  function Total(s: seq<real>): real
    decreases |s|
  {
    if |s| == 0 then 0.0 else Total(s[..|s| - 1]) + s[|s| - 1]
  }

  /** The font size in canvas pixels, `fontSizes[i] * devicePixelRatio`, of every label. */
  function PixelSizes(fontSizes: seq<real>, pixelRatio: real): (r: seq<real>)
    ensures |r| == |fontSizes|
    ensures forall i :: 0 <= i < |fontSizes| ==> r[i] == fontSizes[i] * pixelRatio
  {
    seq(|fontSizes|, i requires 0 <= i < |fontSizes| => fontSizes[i] * pixelRatio)
  }

  /** Label `i`'s baseline: the sizes of labels `0..i` and a margin after each earlier label. */
  function Baseline(sizes: seq<real>, i: nat): real
    requires i < |sizes|
  {
    Total(sizes[..i + 1]) + Margin * (i as real)
  }

  /** Label `i`'s box: from one font size above its baseline to one margin below it. */
  function LabelBox(sizes: seq<real>, extents: seq<(real, real)>, i: nat): Box
    requires |extents| == |sizes| && i < |sizes|
  {
    Box(extents[i].0, Baseline(sizes, i) - sizes[i], extents[i].1, Baseline(sizes, i) + Margin)
  }

  /**
   * The layout loop: advance by the font size, record the baseline and the
   * box, then advance by the margin. `extents[i]` is the measured left and
   * right of label `i`'s text.
   */
  method Layout(sizes: seq<real>, extents: seq<(real, real)>) returns (baseLines: seq<real>, boxes: seq<Box>)
    requires |extents| == |sizes|
    ensures |baseLines| == |sizes| && |boxes| == |sizes|
    ensures forall i :: 0 <= i < |sizes| ==> baseLines[i] == Baseline(sizes, i)
    ensures forall i :: 0 <= i < |sizes| ==> boxes[i] == LabelBox(sizes, extents, i)
  {
    baseLines, boxes := [], [];
    var baseLine := 0.0;
    for i := 0 to |sizes|
      invariant |baseLines| == i && |boxes| == i
      invariant baseLine == Total(sizes[..i]) + Margin * (i as real)
      invariant forall j :: 0 <= j < i ==> baseLines[j] == Baseline(sizes, j)
      invariant forall j :: 0 <= j < i ==> boxes[j] == LabelBox(sizes, extents, j)
    {
      baseLine := baseLine + sizes[i];
      assert sizes[..i + 1][..i] == sizes[..i];
      boxes := boxes + [Box(extents[i].0, baseLine - sizes[i], extents[i].1, baseLine + Margin)];
      baseLines := baseLines + [baseLine];
      baseLine := baseLine + Margin;
    }
  }

  /** The first baseline is the first font size; each later one adds a margin and its own size. */
  lemma BaselineRecurrence(sizes: seq<real>, i: nat)
    requires i < |sizes|
    ensures i == 0 ==> Baseline(sizes, 0) == sizes[0]
    ensures i > 0 ==> Baseline(sizes, i) == Baseline(sizes, i - 1) + Margin + sizes[i]
  {
    assert sizes[..i + 1][..i] == sizes[..i];
    if i == 0 {
      assert sizes[..1][..0] == [];
      assert Total(sizes[..1][..0]) == 0.0;
    }
  }

  /** Consecutive label boxes abut: each ends exactly where the next begins. */
  lemma BoxesAbut(sizes: seq<real>, extents: seq<(real, real)>, i: nat)
    requires |extents| == |sizes| && i + 1 < |sizes|
    ensures LabelBox(sizes, extents, i).maxY == LabelBox(sizes, extents, i + 1).minY
  {
    BaselineRecurrence(sizes, i + 1);
  }

  /** The top of label `i`'s box: the sizes and margins of the labels above it. */
  lemma BoxTop(sizes: seq<real>, extents: seq<(real, real)>, i: nat)
    requires |extents| == |sizes| && i < |sizes|
    ensures LabelBox(sizes, extents, i).minY == Total(sizes[..i]) + Margin * (i as real)
  {
    assert sizes[..i + 1][..i] == sizes[..i];
  }

  predicate Positive(sizes: seq<real>) {
    forall i :: 0 <= i < |sizes| ==> sizes[i] > 0.0
  }

  /** With positive font sizes the baselines strictly increase. */
  lemma {:induction false} BaselinesIncrease(sizes: seq<real>, i: nat, j: nat)
    requires Positive(sizes) && i < j < |sizes|
    ensures Baseline(sizes, i) < Baseline(sizes, j)
    decreases j - i
  {
    BaselineRecurrence(sizes, j);
    if i + 1 < j {
      BaselinesIncrease(sizes, i, j - 1);
    }
  }

  /** The sum of positive sizes is not negative. */
  lemma {:induction false} TotalNonNegative(s: seq<real>)
    requires Positive(s)
    ensures Total(s) >= 0.0
    decreases |s|
  {
    if |s| > 0 {
      TotalNonNegative(s[..|s| - 1]);
    }
  }

  /** `a.clone().union(b)`: the smallest box holding both. */
  function Union(a: Box, b: Box): (r: Box)
    ensures Contains(r, a) && Contains(r, b)
    ensures r.minX == a.minX || r.minX == b.minX
    ensures r.minY == a.minY || r.minY == b.minY
    ensures r.maxX == a.maxX || r.maxX == b.maxX
    ensures r.maxY == a.maxY || r.maxY == b.maxY
  {
    Box(if a.minX <= b.minX then a.minX else b.minX, if a.minY <= b.minY then a.minY else b.minY,
        if a.maxX >= b.maxX then a.maxX else b.maxX, if a.maxY >= b.maxY then a.maxY else b.maxY)
  }

  predicate Contains(outer: Box, inner: Box) {
    outer.minX <= inner.minX && outer.minY <= inner.minY
    && inner.maxX <= outer.maxX && inner.maxY <= outer.maxY
  }

  /**
   * `bboxes.reduce(union)` with no initial value: `None` for no labels, where
   * the reduce throws; otherwise the smallest box holding every label box.
   */
  function Bound(boxes: seq<Box>): (r: Option<Box>)
    ensures r.None? <==> |boxes| == 0
    ensures r.Some? ==> forall i :: 0 <= i < |boxes| ==> Contains(r.value, boxes[i])
    ensures r.Some? ==> exists i :: 0 <= i < |boxes| && r.value.minY == boxes[i].minY
    ensures r.Some? ==> exists i :: 0 <= i < |boxes| && r.value.maxY == boxes[i].maxY
    decreases |boxes|
  {
    if |boxes| == 0 then None
    else if |boxes| == 1 then Some(boxes[0])
    else
      var init := boxes[..|boxes| - 1];
      var last := boxes[|boxes| - 1];
      var rest := Bound(init);
      var r := Union(rest.value, last);
      assert forall i :: 0 <= i < |init| ==> init[i] == boxes[i];
      assert r.minY == rest.value.minY || r.minY == boxes[|boxes| - 1].minY;
      assert r.maxY == rest.value.maxY || r.maxY == boxes[|boxes| - 1].maxY;
      Some(r)
  }

  /**
   * With positive font sizes, the label canvas spans from 0 to the sum of
   * every font size plus one margin per label.
   */
  lemma LayoutHeight(sizes: seq<real>, extents: seq<(real, real)>, boxes: seq<Box>)
    requires |extents| == |sizes| == |boxes| && |sizes| > 0 && Positive(sizes)
    requires forall i :: 0 <= i < |sizes| ==> boxes[i] == LabelBox(sizes, extents, i)
    ensures Bound(boxes).Some?
    ensures Bound(boxes).value.minY == 0.0
    ensures Bound(boxes).value.maxY == Total(sizes) + Margin * (|sizes| as real)
  {
    var b := Bound(boxes).value;
    var n := |sizes|;
    var k :| 0 <= k < n && b.minY == boxes[k].minY;
    BoxTop(sizes, extents, k);
    assert sizes[..k] == sizes[..k];
    PositivePrefix(sizes, k);
    TotalNonNegative(sizes[..k]);
    BoxTop(sizes, extents, 0);
    assert sizes[..0] == [];
    var m :| 0 <= m < n && b.maxY == boxes[m].maxY;
    if m < n - 1 {
      BaselinesIncrease(sizes, m, n - 1);
    }
    assert sizes[..n] == sizes;
  }

  lemma PositivePrefix(sizes: seq<real>, k: nat)
    requires Positive(sizes) && k <= |sizes|
    ensures Positive(sizes[..k])
  {
    assert forall i :: 0 <= i < k ==> sizes[..k][i] == sizes[i];
  }

  /** `Math.ceil`. */
  function Ceil(x: real): (r: int)
    ensures x <= r as real < x + 1.0
  {
    -((-x).Floor)
  }

  /** The canvas is resized to the bounding box, rounded up to whole pixels. */
  function CanvasSize(labels: Box): (r: (int, int))
    ensures labels.maxX - labels.minX <= r.0 as real < labels.maxX - labels.minX + 1.0
    ensures labels.maxY - labels.minY <= r.1 as real < labels.maxY - labels.minY + 1.0
  {
    (Ceil(labels.maxX - labels.minX), Ceil(labels.maxY - labels.minY))
  }

  /** The ribbon's vertex count: four inner corners and four fillet points at each corner. */
  const RibbonVertices: nat := 20

  /** One triangle of an index buffer, as its three vertex indices. */
  datatype Triangle = Triangle(a: int, b: int, c: int)

  /** The two triangles covering the text rectangle. */
  const InnerCorners: seq<Triangle> := [Triangle(0, 1, 3), Triangle(1, 2, 3)]

  /** Three triangles fanning out from each inner corner to its four fillet points. */
  const Fillets: seq<Triangle> := [
    Triangle(0, 4, 5), Triangle(0, 5, 6), Triangle(0, 6, 7),
    Triangle(1, 8, 9), Triangle(1, 9, 10), Triangle(1, 10, 11),
    Triangle(2, 12, 13), Triangle(2, 13, 14), Triangle(2, 14, 15),
    Triangle(3, 16, 17), Triangle(3, 17, 18), Triangle(3, 18, 19)]

  /** Two triangles along each side, joining neighbouring fillets. */
  const Sides: seq<Triangle> := [
    Triangle(0, 7, 8), Triangle(0, 8, 1), Triangle(1, 11, 2), Triangle(2, 11, 12),
    Triangle(3, 2, 15), Triangle(3, 15, 16), Triangle(3, 19, 0), Triangle(0, 19, 4)]

  const RibbonTriangles: seq<Triangle> := InnerCorners + Fillets + Sides

  /** The flat index buffer: three indices per triangle, in order. */
  function Indices(ts: seq<Triangle>): (r: seq<int>)
    ensures |r| == 3 * |ts|
    ensures forall t :: 0 <= t < |ts| ==>
              r[3 * t] == ts[t].a && r[3 * t + 1] == ts[t].b && r[3 * t + 2] == ts[t].c
    decreases |ts|
  {
    if |ts| == 0 then []
    else
      var n := |ts| - 1;
      assert forall t :: 0 <= t < n ==> ts[..n][t] == ts[t];
      Indices(ts[..n]) + [ts[n].a, ts[n].b, ts[n].c]
  }

  /** The ribbon's `Uint16BufferAttribute` index. */
  const RibbonIndex: seq<int> := Indices(RibbonTriangles)

  predicate Proper(t: Triangle) {
    t.a != t.b && t.b != t.c && t.a != t.c
  }

  predicate Within(t: Triangle, n: int) {
    0 <= t.a < n && 0 <= t.b < n && 0 <= t.c < n
  }

  /** Every ribbon triangle names three distinct vertices among the 20. */
  lemma RibbonTrianglesValid()
    ensures |RibbonTriangles| == 22
    ensures forall t :: 0 <= t < |RibbonTriangles| ==>
              Proper(RibbonTriangles[t]) && Within(RibbonTriangles[t], RibbonVertices)
  {
    assert forall t :: 0 <= t < |InnerCorners| ==> Proper(InnerCorners[t]) && Within(InnerCorners[t], 20);
    assert forall t :: 0 <= t < |Fillets| ==> Proper(Fillets[t]) && Within(Fillets[t], 20);
    assert forall t :: 0 <= t < |Sides| ==> Proper(Sides[t]) && Within(Sides[t], 20);
  }

  /** The ribbon index buffer holds 22 triangles, and every index names one of the 20 vertices. */
  lemma RibbonIndexValid()
    ensures |RibbonIndex| == 3 * 22
    ensures forall i :: 0 <= i < |RibbonIndex| ==> 0 <= RibbonIndex[i] < RibbonVertices
  {
    RibbonTrianglesValid();
    var r := RibbonIndex;
    forall i | 0 <= i < |r|
      ensures 0 <= r[i] < RibbonVertices
    {
      var t := i / 3;
      assert i == 3 * t + i % 3;
      assert Within(RibbonTriangles[t], RibbonVertices);
      if i % 3 == 0 {
        assert r[i] == RibbonTriangles[t].a;
      } else if i % 3 == 1 {
        assert r[i] == RibbonTriangles[t].b;
      } else {
        assert r[i] == RibbonTriangles[t].c;
      }
    }
  }

  predicate Uses(t: Triangle, v: int) {
    t.a == v || t.b == v || t.c == v
  }

  /** Some ribbon triangle draws vertex `v`. */
  predicate Drawn(v: int) {
    exists t :: 0 <= t < |RibbonTriangles| && Uses(RibbonTriangles[t], v)
  }

  /** Every one of the 20 vertices is drawn by some ribbon triangle. */
  lemma RibbonCoversVertices()
    ensures forall v :: 0 <= v < RibbonVertices ==> Drawn(v)
  {
    forall v | 0 <= v < RibbonVertices
      ensures Drawn(v)
    {
      var k := (v - 4) % 4;
      var t := if v < 4 then (if v == 2 then 1 else 0)
               else 2 + (v - 4) / 4 * 3 + (if k == 3 then 2 else if k == 2 then 1 else 0);
      assert Uses(RibbonTriangles[t], v);
    }
  }

  /**
   * The `nodeIndex` attribute: each label's node index stored in a
   * `Uint16Array`, which the shader reads back with `int()`.
   */
  function LabelNodeIndices(nodeIndices: seq<int>): (r: seq<real>)
    ensures |r| == |nodeIndices|
    ensures forall i :: 0 <= i < |nodeIndices| && 0 <= nodeIndices[i] < 65536 ==>
              EdgeShaders.TruncInt(r[i]) == nodeIndices[i]
  {
    var r := seq(|nodeIndices|, i requires 0 <= i < |nodeIndices| => EdgeShaders.Uint16(nodeIndices[i]) as real);
    forall i | 0 <= i < |nodeIndices| && 0 <= nodeIndices[i] < 65536
      ensures EdgeShaders.TruncInt(r[i]) == nodeIndices[i] {
      EdgeShaders.TruncIntWhole(EdgeShaders.Uint16(nodeIndices[i]));
    }
    r
  }

  datatype Rgba = Rgba(r: real, g: real, b: real, a: real)

  function ScaleRgba(c: Rgba, k: real): Rgba {
    Rgba(c.r * k, c.g * k, c.b * k, c.a * k)
  }

  /** GLSL `mix` on four components. */
  function MixRgba(x: Rgba, y: Rgba, t: real): Rgba {
    Rgba(x.r * (1.0 - t) + y.r * t, x.g * (1.0 - t) + y.g * t, x.b * (1.0 - t) + y.b * t,
         x.a * (1.0 - t) + y.a * t)
  }

  /** The label material's fixed `opacity` and `canvasBackgroundColor` uniforms. */
  const LabelOpacity: real := 0.9
  const CanvasBackground: Vec3 := Vec3(0.2, 0.2, 0.2)

  /** Below this fog value a label's fragments are discarded. */
  const FogCutoff: real := 0.03

  /**
   * The label fragment shader: `None` when the fragment is discarded, else its
   * colour. `coverage` is the glyph texel's alpha; `bezel` tells whether the
   * fragment lies on the rounded border around the text.
   */
  function LabelFragment(nodeColour: Vec3, f: Flags, fog: real, coverage: real, bezel: bool): (c: Option<Rgba>)
    ensures c.None? <==> fog < FogCutoff
    ensures c.Some? && (f.hovered || f.highlighted) ==>
              c.value.a == 0.8 && (bezel ==> c.value == Rgba(1.0, 1.0, 1.0, 0.8))
              && (!bezel ==> c.value.r == 1.0 - coverage && c.value.g == 1.0 - coverage && c.value.b == 1.0 - coverage)
    ensures c.Some? && !(f.hovered || f.highlighted) ==>
              c.value.a == (if bezel then 0.0 else coverage * LabelOpacity * fog)
  {
    if fog < FogCutoff then None
    else
      var plain := MixRgba(Rgba(nodeColour.x, nodeColour.y, nodeColour.z, 1.0),
                           Rgba(1.0 - CanvasBackground.x, 1.0 - CanvasBackground.y, 1.0 - CanvasBackground.z, 1.0), 0.8);
      var fg := if f.hovered || f.highlighted then Rgba(0.0, 0.0, 0.0, 0.8) else ScaleRgba(plain, LabelOpacity * fog);
      var bg := if f.hovered || f.highlighted then Rgba(1.0, 1.0, 1.0, 0.8)
                else ScaleRgba(Rgba(plain.r, plain.g, plain.b, 0.0), LabelOpacity * fog);
      Some(if bezel then bg else MixRgba(bg, fg, coverage))
  }

  /** The fog factor: `clamp(600 * nodeSize / |nodePos - camera|^2, 0, 1)`. */
  function Fog(nodeSize: real, distSq: real): (r: real)
    requires distSq > 0.0
    ensures 0.0 <= r <= 1.0
  {
    var f := 600.0 * nodeSize / distSq;
    if f < 0.0 then 0.0 else if f > 1.0 then 1.0 else f
  }

  /**
   * End to end: with the flags texel in step with the node, a shown label is
   * black on white at alpha 0.8 exactly when its node is hovered or
   * highlighted; otherwise its glyphs fade with the fog over a clear background.
   */
  lemma LabelFollowsGraph(maps: LatticeMesh.Maps, node: LatticeMesh.Node, i: nat,
                          fog: real, coverage: real, bezel: bool)
    requires LatticeMesh.Textured(maps) && maps.position.side >= 1
    requires i < maps.position.side * maps.position.side
    requires maps.flags.data[i] == MaskOf(node.hovered, node.highlighted, node.selected)
    requires fog >= FogCutoff
    ensures var s := LatticeMesh.Pulled(maps, i);
            var c := LabelFragment(s.colour, Decode(AsFloat(s.flags)), fog, coverage, bezel);
            c.Some?
            && (node.hovered || node.highlighted ==> c.value.a == 0.8)
            && (!(node.hovered || node.highlighted) ==> c.value.a == (if bezel then 0.0 else coverage * LabelOpacity * fog))
  {
    LatticeMesh.PulledIsStored(maps, i);
    DecodeRoundTrip(node.hovered, node.highlighted, node.selected);
  }
}
