/**
 * The canvas label overlay: each frame clears the canvas, then draws, in
 * input order, the text of every visible label whose projected position lies
 * inside the view volume. The label accessors (`visible`, `color`, `opacity`,
 * `fontSize`) and the camera projection of `position(n)` are parameters.
 */
module CanvasLabels {
  import opened Wrappers
  import opened Vectors

  /** A label: the node key that is also its text. */
  type Label = string

  /** One 2D-context call of `update`. */
  datatype CanvasOp =
    | Clear
    | FillText(index: nat, text: Label, x: real, y: real, fill: (real, real, real, real), font: string)

  /** Inside the view volume: in front of the far plane and strictly inside the unit square. */
  predicate InView(p: Vec3) {
    p.z < 1.0 && -1.0 < p.x < 1.0 && -1.0 < p.y < 1.0
  }

  /** The label's text is drawn 20 pixels above its projected point. */
  const Lift: real := 20.0

  /** `color(n) || defaultColor`: a missing colour falls back to the default. */
  function ColourOf(colour: Option<Vec3>, defaultColour: Vec3): (c: Vec3)
    ensures colour.Some? ==> c == colour.value
    ensures colour.None? ==> c == defaultColour
  {
    match colour
    case Some(c) => c
    case None => defaultColour
  }

  /** The `rgba(...)` fill style: the colour's channels scaled to 0..255 and the label's opacity. */
  function Fill(c: Vec3, opacity: real): (real, real, real, real) {
    (c.x * 255.0, c.y * 255.0, c.z * 255.0, opacity)
  }

  /** The overlay's label accessors, the camera projection of each label's position, and the canvas size. */
  datatype View = View(visible: Label -> bool, project: Label -> Vec3, colour: Label -> Option<Vec3>,
                       defaultColour: Vec3, opacity: Label -> real, fontSize: Label -> string,
                       width: real, height: real)

  /** A label is drawn when it is visible and projects inside the view volume. */
  predicate Shown(v: View, n: Label) {
    v.visible(n) && InView(v.project(n))
  }

  /** The text call that draws label `i`. */
  function Text(v: View, labels: seq<Label>, i: nat): (op: CanvasOp)
    requires i < |labels|
    ensures op.FillText? && op.index == i && op.text == labels[i]
  {
    var n := labels[i];
    var p := v.project(n);
    FillText(i, n, (p.x + 1.0) / 2.0 * v.width, (-p.y + 1.0) / 2.0 * v.height - Lift,
             Fill(ColourOf(v.colour(n), v.defaultColour), v.opacity(n)), v.fontSize(n) + " sans-serif")
  }

  /**
   * A label's text is centred on its projected point mapped from the unit
   * square to the canvas (y pointing down), lifted by 20 pixels, and filled
   * with its own colour or else the default one.
   */
  lemma TextPlacement(v: View, labels: seq<Label>, i: nat)
    requires i < |labels|
    ensures var op := Text(v, labels, i);
            var p := v.project(labels[i]);
            op.x == (p.x + 1.0) / 2.0 * v.width && op.y == (-p.y + 1.0) / 2.0 * v.height - Lift
            && (v.colour(labels[i]).Some? ==> op.fill.0 == v.colour(labels[i]).value.x * 255.0)
            && (v.colour(labels[i]).None? ==> op.fill.0 == v.defaultColour.x * 255.0)
            && op.fill.3 == v.opacity(labels[i])
  {
  }

  /** The text calls for labels `from..` of the list, in order. */
  function DrawFrom(v: View, labels: seq<Label>, from: nat): (r: seq<CanvasOp>)
    requires from <= |labels|
    ensures forall k :: 0 <= k < |r| ==>
              r[k].FillText? && from <= r[k].index < |labels| && Shown(v, labels[r[k].index])
              && r[k] == Text(v, labels, r[k].index)
    ensures forall k, m :: 0 <= k < m < |r| ==> r[k].index < r[m].index
    decreases |labels| - from
  {
    if from == |labels| then []
    else
      var rest := DrawFrom(v, labels, from + 1);
      if Shown(v, labels[from]) then
        var r := [Text(v, labels, from)] + rest;
        assert forall k :: 1 <= k < |r| ==> r[k] == rest[k - 1];
        r
      else rest
  }

  /** Every label from `from` on that is shown gets a text call. */
  lemma {:induction false} DrawFromComplete(v: View, labels: seq<Label>, from: nat, i: nat)
    requires from <= i < |labels| && Shown(v, labels[i])
    ensures exists k :: 0 <= k < |DrawFrom(v, labels, from)| && DrawFrom(v, labels, from)[k].index == i
    decreases |labels| - from
  {
    var r := DrawFrom(v, labels, from);
    if i == from {
      assert r[0].index == i;
    } else {
      DrawFromComplete(v, labels, from + 1, i);
      var rest := DrawFrom(v, labels, from + 1);
      var k :| 0 <= k < |rest| && rest[k].index == i;
      if Shown(v, labels[from]) {
        assert r[k + 1] == rest[k];
      } else {
        assert r[k] == rest[k];
      }
    }
  }

  /**
   * `update`: clear the canvas, then one text call per drawn label, in input
   * order.
   */
  function Update(v: View, labels: seq<Label>): (ops: seq<CanvasOp>)
    ensures |ops| >= 1 && ops[0] == Clear
    ensures forall k :: 1 <= k < |ops| ==>
              ops[k].FillText? && ops[k].index < |labels| && ops[k] == Text(v, labels, ops[k].index)
    ensures forall k, m :: 1 <= k < m < |ops| ==> ops[k].index < ops[m].index
  {
    [Clear] + DrawFrom(v, labels, 0)
  }

  /** Label `i` gets a text call in the frame iff it is visible and in view. */
  lemma DrawnIffShown(v: View, labels: seq<Label>, i: nat)
    requires i < |labels|
    ensures var ops := Update(v, labels);
            (exists k :: 1 <= k < |ops| && ops[k].index == i) <==> Shown(v, labels[i])
  {
    var ops := Update(v, labels);
    var drawn := DrawFrom(v, labels, 0);
    assert forall k :: 1 <= k < |ops| ==> ops[k] == drawn[k - 1];
    if Shown(v, labels[i]) {
      DrawFromComplete(v, labels, 0, i);
      var k :| 0 <= k < |drawn| && drawn[k].index == i;
      assert ops[k + 1].index == i;
    }
  }
}
