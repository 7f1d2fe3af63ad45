/**
 * The older graph controls: the same hover transition as the lattice
 * controls, plus a click that is armed by any document `mousedown` and
 * disarmed by any document `mousemove`. There is no `enabled` flag and no
 * drag. Both listeners raycast against the attached object's child named
 * `points`; when there is none, `intersectObject(undefined)` throws. The ray
 * itself is not modelled: each pointer event carries the index of the first
 * intersected node (`closest`).
 */
module GraphControls {
  import opened Wrappers
  import Hover
  import LatticeMesh

  /** The attached object as the controls see it: the names `getObjectByName` can find in it. */
  datatype Target = Target(names: set<string>)
  {
    /** Whether `getObjectByName('points')` finds a child to raycast against. */
    predicate HasPoints() {
      "points" in names
    }
  }

  /** A lattice mesh as an attached object: its only named children are `nodes` and `edges`. */
  function OfLattice(m: LatticeMesh.Mesh): Target {
    Target({"nodes", "edges"})
  }

  /** The hovered index `currentIdx`, whether the document click listener is registered, and the attached object. */
  datatype Controls = Controls(current: Option<nat>, clickArmed: bool, mesh: Option<Target>)

  datatype Input =
    | Move(closest: Option<nat>)   // a move over the element: it bubbles up to the document
    | MoveElsewhere                // a move over the document outside the element
    | Down
    | ClickAt(closest: Option<nat>)
    | Attach(m: Target)
    | Detach

  /**
   * What the controls dispatch; `Threw` is a listener throwing because no
   * object is attached or the attached one has no `points` child.
   */
  datatype Output = HoverOut(event: Hover.HoverEvent) | Click(target: Option<nat>) | Threw

  /** The constructor: nothing hovered, no click armed, nothing attached. */
  function Create(): (c: Controls)
    ensures c.current.None? && !c.clickArmed && c.mesh.None?
  {
    Controls(None, false, None)
  }

  /** The hover events as dispatched outputs, in order. */
  function HoverOuts(events: seq<Hover.HoverEvent>): (r: seq<Output>)
    ensures |r| == |events| && forall i :: 0 <= i < |events| ==> r[i] == HoverOut(events[i])
  {
    seq(|events|, i requires 0 <= i < |events| => HoverOut(events[i]))
  }

  /** Whether an object is attached and has a `points` child, so that raycasting does not throw. */
  predicate CanRaycast(mesh: Option<Target>) {
    mesh.Some? && mesh.value.HasPoints()
  }

  /**
   * The controls' reaction to one input. A move runs the element's hover
   * listener, then the document's listener, which unregisters the click
   * listener; an exception in the first does not stop the second.
   */
  function Step(c: Controls, e: Input): (r: (Controls, seq<Output>))
    ensures e.Move? || e.MoveElsewhere? ==> !r.0.clickArmed
    ensures e.Down? ==> r.0.clickArmed
    ensures e.ClickAt? || e.Attach? || e.Detach? ==> r.0.clickArmed == c.clickArmed
    ensures e.Attach? ==> r.0.mesh == Some(e.m)
    ensures e.Detach? ==> r.0.mesh.None?
    ensures !e.Attach? && !e.Detach? ==> r.0.mesh == c.mesh
    ensures e.ClickAt? ==> r.1 == (if !c.clickArmed then [] else if !CanRaycast(c.mesh) then [Threw] else [Click(e.closest)])
    ensures e.Move? && !CanRaycast(c.mesh) ==> r.0.current == c.current && r.1 == [Threw]
  {
    match e
    case Move(closest) =>
      if !CanRaycast(c.mesh) then (c.(clickArmed := false), [Threw])
      else
        var t := Hover.Transition(c.current, closest);
        (c.(current := t.0, clickArmed := false), HoverOuts(t.1))
    case MoveElsewhere => (c.(clickArmed := false), [])
    case Down => (c.(clickArmed := true), [])
    case ClickAt(closest) =>
      if !c.clickArmed then (c, [])
      else if !CanRaycast(c.mesh) then (c, [Threw])
      else (c, [Click(closest)])
    case Attach(m) => (c.(mesh := Some(m)), [])
    case Detach => (c.(mesh := None), [])
  }

  /** The outputs and final state of a run of inputs. */
  function Run(c: Controls, inputs: seq<Input>): (r: (Controls, seq<Output>))
    ensures |inputs| == 0 ==> r == (c, [])
    decreases |inputs|
  {
    if |inputs| == 0 then (c, [])
    else
      var init := Run(c, inputs[..|inputs| - 1]);
      var last := Step(init.0, inputs[|inputs| - 1]);
      (last.0, init.1 + last.1)
  }

  /** With a `points` child to hit, a move runs the shared hover transition and disarms the click. */
  lemma HoverMove(c: Controls, closest: Option<nat>)
    requires CanRaycast(c.mesh)
    ensures var r := Step(c, Move(closest));
            var t := Hover.Transition(c.current, closest);
            r.0.current == t.0 && r.1 == HoverOuts(t.1) && !r.0.clickArmed
  {
  }

  /** Whether an input is a pointer press or move, the inputs that decide the click listener. */
  predicate Pointer(e: Input) {
    e.Down? || e.Move? || e.MoveElsewhere?
  }

  /**
   * Whether the click listener is registered after `inputs`: the latest press
   * or move decides (a press arms, a move disarms); without one, the initial
   * state holds.
   */
  function ArmedAfter(armed: bool, inputs: seq<Input>): bool
    decreases |inputs|
  {
    if |inputs| == 0 then armed
    else if Pointer(inputs[|inputs| - 1]) then inputs[|inputs| - 1].Down?
    else ArmedAfter(armed, inputs[..|inputs| - 1])
  }

  /** The click listener is registered exactly when the latest press or move was a press. */
  lemma {:induction false} ArmedIffLastPointerWasPress(c: Controls, inputs: seq<Input>)
    ensures Run(c, inputs).0.clickArmed == ArmedAfter(c.clickArmed, inputs)
    decreases |inputs|
  {
    if |inputs| > 0 {
      ArmedIffLastPointerWasPress(c, inputs[..|inputs| - 1]);
    }
  }

  /** Attach and detach set and clear the target: the latest of them decides. */
  function MeshAfter(mesh: Option<Target>, inputs: seq<Input>): Option<Target>
    decreases |inputs|
  {
    if |inputs| == 0 then mesh
    else match inputs[|inputs| - 1]
      case Attach(m) => Some(m)
      case Detach => None
      case _ => MeshAfter(mesh, inputs[..|inputs| - 1])
  }

  lemma {:induction false} MeshFollowsAttach(c: Controls, inputs: seq<Input>)
    ensures Run(c, inputs).0.mesh == MeshAfter(c.mesh, inputs)
    decreases |inputs|
  {
    if |inputs| > 0 {
      MeshFollowsAttach(c, inputs[..|inputs| - 1]);
    }
  }

  /**
   * A click dispatches `click` exactly when the latest press or move before it
   * was a press and the attached object has a `points` child, with the first
   * intersected index; armed without one, the listener throws.
   */
  lemma ClickIffPressedStill(c: Controls, inputs: seq<Input>, closest: Option<nat>)
    ensures var armed := ArmedAfter(c.clickArmed, inputs);
            Run(c, inputs + [ClickAt(closest)]).1
            == Run(c, inputs).1 + (if !armed then [] else if !CanRaycast(MeshAfter(c.mesh, inputs)) then [Threw]
                                   else [Click(closest)])
  {
    var all := inputs + [ClickAt(closest)];
    assert all[..|all| - 1] == inputs;
    ArmedIffLastPointerWasPress(c, inputs);
    MeshFollowsAttach(c, inputs);
  }

  /** A move between the press and the click cancels the click. */
  lemma MoveCancelsClick(c: Controls, moved: Option<nat>, clicked: Option<nat>)
    ensures forall o :: o in Run(c, [Down, Move(moved), ClickAt(clicked)]).1 ==> !o.Click?
  {
    var inputs := [Down, Move(moved), ClickAt(clicked)];
    assert inputs[..2] == [Down, Move(moved)];
    assert inputs[..2][..1] == [Down];
    assert inputs[..2][..1][..0] == [];
    var pressed := Step(c, Down);
    assert Run(c, [Down]) == (pressed.0, [] + pressed.1);
    var moveStep := Step(pressed.0, Move(moved));
    assert forall o :: o in moveStep.1 ==> !o.Click?;
  }

  /** One move over the element per index under the pointer. */
  function Moves(closests: seq<Option<nat>>): (r: seq<Input>)
    ensures |r| == |closests| && forall i :: 0 <= i < |r| ==> r[i] == Move(closests[i])
  {
    seq(|closests|, i requires 0 <= i < |closests| => Move(closests[i]))
  }

  lemma HoverOutsAppend(a: seq<Hover.HoverEvent>, b: seq<Hover.HoverEvent>)
    ensures HoverOuts(a + b) == HoverOuts(a) + HoverOuts(b)
  {
  }

  /**
   * With a `points` child to hit, a run of moves tracks exactly the hover state and
   * events of the shared transition, so enters and leaves pair up as they do there.
   */
  lemma {:induction false} MovesFollowHover(c: Controls, closests: seq<Option<nat>>)
    requires CanRaycast(c.mesh)
    ensures var r := Run(c, Moves(closests));
            var h := Hover.Run(c.current, closests);
            r.0.current == h.0 && r.0.mesh == c.mesh && r.1 == HoverOuts(h.1)
    decreases |closests|
  {
    var inputs := Moves(closests);
    if |closests| > 0 {
      var init := closests[..|closests| - 1];
      assert inputs[..|inputs| - 1] == Moves(init);
      MovesFollowHover(c, init);
      var h := Hover.Run(c.current, init);
      HoverOutsAppend(h.1, Hover.Transition(h.0, closests[|closests| - 1]).1);
    }
  }

  /**
   * A lattice mesh has no `points` child: once one is attached, every move
   * and every armed click throws, and the hover state never changes.
   */
  lemma LatticeAttachedThrows(c: Controls, m: LatticeMesh.Mesh, closests: seq<Option<nat>>, clicked: Option<nat>)
    ensures var attached := Step(c, Attach(OfLattice(m))).0;
            var moved := Run(attached, Moves(closests));
            moved.0.current == c.current && moved.1 == seq(|closests|, _ => Threw)
            && Step(attached.(clickArmed := true), ClickAt(clicked)).1 == [Threw]
  {
    var attached := Step(c, Attach(OfLattice(m))).0;
    assert !OfLattice(m).HasPoints();
    ThrowingMoves(attached, closests);
  }

  /** Without a `points` child to hit, every move of a run throws and leaves the hover state alone. */
  lemma {:induction false} ThrowingMoves(c: Controls, closests: seq<Option<nat>>)
    requires !CanRaycast(c.mesh)
    ensures var r := Run(c, Moves(closests));
            r.0.current == c.current && r.0.mesh == c.mesh && r.1 == seq(|closests|, _ => Threw)
    decreases |closests|
  {
    var inputs := Moves(closests);
    if |closests| > 0 {
      var init := closests[..|closests| - 1];
      assert inputs[..|inputs| - 1] == Moves(init);
      ThrowingMoves(c, init);
      assert seq(|closests|, _ => Threw) == seq(|init|, _ => Threw) + [Threw];
    }
  }
}
