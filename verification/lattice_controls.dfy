/**
 * The mouse controls of the lattice mesh, as a state machine over DOM events.
 * The element's `mousemove` listeners form an ordered list, because the
 * controls swap them in and out: the hover listener, the drag listener and a
 * gate that disarms a pending click. Raycasting is not modelled: each pointer
 * event carries the index of the node under the pointer (`closest`), which
 * the source takes from an intersection list whose order it leaves unspecified.
 * The 10 ms `setTimeout` that re-adds the hover listener after a press is a
 * separate `Rearm` event, and the touch handlers are not part of this model.
 */
module LatticeControls {
  import opened Wrappers
  import Hover
  import LatticeMesh

  /** The three `mousemove` listeners the controls register. */
  datatype Listener = HoverListener | DragListener | GateListener

  /**
   * `enabled`, the hovered index `currentIdx`, the element's `mousemove`
   * listeners in registration order, whether the click listener is registered,
   * how many re-arm timers are pending, and the attached mesh.
   */
  datatype Controls = Controls(enabled: bool, current: Option<nat>, moveListeners: seq<Listener>,
                               clickArmed: bool, pendingRearms: nat, mesh: Option<LatticeMesh.Mesh>)

  datatype Input =
    | Move(closest: Option<nat>)
    | Down
    | Up
    | Rearm
    | ClickAt(closest: Option<nat>)
    | SetEnabled(on: bool)
    | Attach(m: LatticeMesh.Mesh)
    | Detach

  /** What the controls dispatch; `Threw` is a listener that threw (raycasting with no mesh attached). */
  datatype Output =
    | HoverOut(event: Hover.HoverEvent)
    | MouseDrag
    | NodeDrag(index: nat)
    | Click(target: Option<nat>)
    | Threw

  /** `addEventListener`: a listener already registered is not added again. */
  function AddListener(ls: seq<Listener>, l: Listener): (r: seq<Listener>)
    ensures forall x :: x in r <==> x in ls || x == l
    ensures NoDuplicates(ls) ==> NoDuplicates(r)
  {
    if l in ls then ls else ls + [l]
  }

  /** `removeEventListener`. */
  function RemoveListener(ls: seq<Listener>, l: Listener): (r: seq<Listener>)
    ensures forall x :: x in r <==> x in ls && x != l
    ensures NoDuplicates(ls) ==> NoDuplicates(r)
    decreases |ls|
  {
    if |ls| == 0 then []
    else
      var rest := RemoveListener(ls[1..], l);
      assert forall x :: x in ls <==> x == ls[0] || x in ls[1..];
      assert NoDuplicates(ls) ==> NoDuplicates(ls[1..]) && ls[0] !in ls[1..];
      if ls[0] == l then rest else [ls[0]] + rest
  }

  predicate NoDuplicates(ls: seq<Listener>) {
    forall i, j :: 0 <= i < j < |ls| ==> ls[i] != ls[j]
  }

  /** The gate is registered once, at construction, and never removed; no listener is registered twice. */
  predicate Valid(c: Controls) {
    GateListener in c.moveListeners && NoDuplicates(c.moveListeners)
  }

  /** The constructor: enabled, nothing hovered, hover then gate listening, no click armed, no mesh. */
  function Create(): (c: Controls)
    ensures Valid(c) && c.enabled && c.current.None? && !c.clickArmed && c.mesh.None?
  {
    Controls(true, None, [HoverListener, GateListener], false, 0, None)
  }

  /** One `mousemove` listener handling a move over `closest`. */
  function RunListener(c: Controls, l: Listener, closest: Option<nat>): (r: (Controls, seq<Output>))
    ensures r.0.moveListeners == c.moveListeners && r.0.enabled == c.enabled && r.0.mesh == c.mesh
  {
    match l
    case HoverListener =>
      if !c.enabled then (c, [])
      else if c.mesh.None? then (c, [Threw])
      else
        var t := Hover.Transition(c.current, closest);
        (c.(current := t.0), seq(|t.1|, i requires 0 <= i < |t.1| => HoverOut(t.1[i])))
    case DragListener =>
      (c, [MouseDrag] + (if Hover.Truthy(c.current) then [NodeDrag(c.current.value)] else []))
    case GateListener =>
      if c.enabled then (c.(clickArmed := false), []) else (c, [])
  }

  /** Dispatching a `mousemove` to the listeners `ls`, in order. */
  function Dispatch(c: Controls, ls: seq<Listener>, closest: Option<nat>): (r: (Controls, seq<Output>))
    ensures r.0.moveListeners == c.moveListeners && r.0.enabled == c.enabled && r.0.mesh == c.mesh
    ensures MouseDrag in r.1 <==> DragListener in ls
    decreases |ls|
  {
    if |ls| == 0 then (c, [])
    else
      var first := RunListener(c, ls[0], closest);
      var rest := Dispatch(first.0, ls[1..], closest);
      assert DragListener in ls <==> ls[0] == DragListener || DragListener in ls[1..];
      assert MouseDrag in first.1 <==> ls[0] == DragListener;
      (rest.0, first.1 + rest.1)
  }

  /** The controls' reaction to one input. */
  function Step(c: Controls, e: Input): (r: (Controls, seq<Output>))
    ensures Valid(c) ==> Valid(r.0)
  {
    match e
    case Move(closest) => Dispatch(c, c.moveListeners, closest)
    case Down =>
      if !c.enabled then (c, [])
      else
        var ls := AddListener(RemoveListener(c.moveListeners, HoverListener), DragListener);
        (c.(clickArmed := true, moveListeners := ls), [])
    case Up =>
      (c.(moveListeners := RemoveListener(c.moveListeners, DragListener), pendingRearms := c.pendingRearms + 1), [])
    case Rearm =>
      if c.pendingRearms == 0 then (c, [])
      else (c.(moveListeners := AddListener(c.moveListeners, HoverListener), pendingRearms := c.pendingRearms - 1), [])
    case ClickAt(closest) =>
      if !c.clickArmed then (c, [])
      else if c.mesh.None? then (c, [Threw])
      else (c, [Click(closest)])
    case SetEnabled(on) => (c.(enabled := on), [])
    case Attach(m) => (c.(mesh := Some(m)), [])
    case Detach => (c.(mesh := None), [])
  }

  /** The outputs and final state of a run of inputs. */
  function Run(c: Controls, inputs: seq<Input>): (r: (Controls, seq<Output>))
    ensures Valid(c) ==> Valid(r.0)
    decreases |inputs|
  {
    if |inputs| == 0 then (c, [])
    else
      var first := Step(c, inputs[0]);
      var rest := Run(first.0, inputs[1..]);
      (rest.0, first.1 + rest.1)
  }

  lemma DispatchOne(c: Controls, l: Listener, closest: Option<nat>)
    ensures Dispatch(c, [l], closest) == RunListener(c, l, closest)
  {
    assert [l][1..] == [];
    var first := RunListener(c, l, closest);
    assert Dispatch(first.0, [], closest) == (first.0, []);
    assert first.1 + [] == first.1;
  }

  lemma DispatchTwo(c: Controls, a: Listener, b: Listener, closest: Option<nat>)
    ensures var first := RunListener(c, a, closest);
            var second := RunListener(first.0, b, closest);
            Dispatch(c, [a, b], closest) == (second.0, first.1 + second.1)
  {
    assert [a, b][1..] == [b];
    DispatchOne(RunListener(c, a, closest).0, b, closest);
  }

  lemma RunOne(c: Controls, e: Input)
    ensures Run(c, [e]) == Step(c, e)
  {
    assert [e][1..] == [];
    var first := Step(c, e);
    assert Run(first.0, []) == (first.0, []);
    assert first.1 + [] == first.1;
  }

  lemma RunTwo(c: Controls, a: Input, b: Input)
    ensures var first := Step(c, a);
            var second := Step(first.0, b);
            Run(c, [a, b]) == (second.0, first.1 + second.1)
  {
    assert [a, b][1..] == [b];
    RunOne(Step(c, a).0, b);
  }

  lemma RunThree(c: Controls, a: Input, b: Input, d: Input)
    ensures var first := Step(c, a);
            var rest := Run(first.0, [b, d]);
            Run(c, [a, b, d]) == (rest.0, first.1 + rest.1)
  {
    assert [a, b, d][1..] == [b, d];
  }

  /** Hovering in the listening state runs the shared hover transition and disarms any click. */
  lemma HoverMove(c: Controls, closest: Option<nat>)
    requires c.enabled && c.mesh.Some? && c.moveListeners == [HoverListener, GateListener]
    ensures var r := Step(c, Move(closest));
            var t := Hover.Transition(c.current, closest);
            r.0.current == closest && !r.0.clickArmed
            && |r.1| == |t.1| && forall i :: 0 <= i < |t.1| ==> r.1[i] == HoverOut(t.1[i])
  {
    DispatchTwo(c, HoverListener, GateListener, closest);
  }

  /** Moves never emit an event naming node 0: the truthiness tests skip it. */
  lemma {:induction false} NoEventForNodeZero(c: Controls, ls: seq<Listener>, closest: Option<nat>)
    ensures forall o :: o in Dispatch(c, ls, closest).1 ==>
              (o.HoverOut? ==> o.event.index != 0) && (o.NodeDrag? ==> o.index != 0)
    decreases |ls|
  {
    if |ls| > 0 {
      var first := RunListener(c, ls[0], closest);
      NoEventForNodeZero(first.0, ls[1..], closest);
      Hover.NeverNodeZero(c.current, closest);
      var t := Hover.Transition(c.current, closest);
      assert forall o :: o in first.1 ==> (o.HoverOut? ==> o.event in t.1);
    }
  }

  /** While disabled, a move outside a drag emits nothing and changes nothing. */
  lemma DisabledMoveSilent(c: Controls, closest: Option<nat>)
    requires !c.enabled && DragListener !in c.moveListeners
    ensures Step(c, Move(closest)) == (c, [])
  {
    DisabledDispatch(c, c.moveListeners, closest);
  }

  lemma {:induction false} DisabledDispatch(c: Controls, ls: seq<Listener>, closest: Option<nat>)
    requires !c.enabled && DragListener !in ls
    ensures Dispatch(c, ls, closest) == (c, [])
    decreases |ls|
  {
    if |ls| > 0 {
      assert ls[0] != DragListener && DragListener !in ls[1..];
      assert RunListener(c, ls[0], closest) == (c, []);
      DisabledDispatch(c, ls[1..], closest);
      var empty: seq<Output> := [];
      assert empty + empty == [];
    }
  }

  /** While disabled, a press arms nothing. */
  lemma DisabledDownArmsNothing(c: Controls)
    requires !c.enabled
    ensures Step(c, Down) == (c, [])
  {
  }

  /** With the drag listener registered, a move emits `mousedrag` whether or not the controls are enabled. */
  lemma DragAlwaysEmits(c: Controls, closest: Option<nat>)
    requires DragListener in c.moveListeners
    ensures MouseDrag in Step(c, Move(closest)).1
  {
  }

  /**
   * A press in the listening state swaps the hover listener for the drag
   * listener; the next move emits `mousedrag`, then `nodedrag` for the hovered
   * node only if its index is truthy, and disarms the click.
   */
  lemma PressThenDrag(c: Controls, closest: Option<nat>)
    requires c.enabled && c.moveListeners == [HoverListener, GateListener]
    ensures var pressed := Step(c, Down).0;
            pressed.moveListeners == [GateListener, DragListener] && pressed.clickArmed
            && Step(pressed, Move(closest)).1
               == [MouseDrag] + (if Hover.Truthy(c.current) then [NodeDrag(c.current.value)] else [])
            && !Step(pressed, Move(closest)).0.clickArmed
  {
    var pressed := Step(c, Down).0;
    assert RemoveListener([HoverListener, GateListener], HoverListener) == [GateListener] by {
      assert [HoverListener, GateListener][1..] == [GateListener];
      assert [GateListener][1..] == [];
    }
    assert pressed.moveListeners == [GateListener, DragListener];
    DispatchTwo(pressed, GateListener, DragListener, closest);
  }

  /**
   * A click is dispatched only when no move came between the press and the
   * click: in enabled controls, press, move, click emits no `click`.
   */
  lemma MoveCancelsClick(c: Controls, moved: Option<nat>, clicked: Option<nat>)
    requires Valid(c) && c.enabled
    ensures forall o :: o in Run(c, [Down, Move(moved), ClickAt(clicked)]).1 ==> !o.Click?
  {
    var pressed := Step(c, Down);
    PressArms(c);
    PressedMoveDisarms(pressed.0, moved);
    var after := Step(pressed.0, Move(moved));
    assert Step(after.0, ClickAt(clicked)).1 == [];
    RunThree(c, Down, Move(moved), ClickAt(clicked));
    RunTwo(pressed.0, Move(moved), ClickAt(clicked));
  }

  /** In enabled controls with the gate registered, a move disarms the click and dispatches no `click`. */
  lemma PressedMoveDisarms(c: Controls, moved: Option<nat>)
    requires Valid(c) && c.enabled
    ensures var after := Step(c, Move(moved));
            !after.0.clickArmed && forall o :: o in after.1 ==> !o.Click?
  {
    GateDisarms(c, c.moveListeners, moved);
    MovesNeverClick(c, c.moveListeners, moved);
  }

  /** With the gate registered and the controls enabled, a dispatched move disarms the click. */
  lemma {:induction false} GateDisarms(c: Controls, ls: seq<Listener>, closest: Option<nat>)
    requires c.enabled
    ensures GateListener in ls ==> !Dispatch(c, ls, closest).0.clickArmed
    ensures !c.clickArmed ==> !Dispatch(c, ls, closest).0.clickArmed
    decreases |ls|
  {
    if |ls| > 0 {
      var first := RunListener(c, ls[0], closest);
      GateDisarms(first.0, ls[1..], closest);
      assert GateListener in ls ==> ls[0] == GateListener || GateListener in ls[1..];
    }
  }

  /** A move never dispatches `click`. */
  lemma {:induction false} MovesNeverClick(c: Controls, ls: seq<Listener>, closest: Option<nat>)
    ensures forall o :: o in Dispatch(c, ls, closest).1 ==> !o.Click?
    decreases |ls|
  {
    if |ls| > 0 {
      MovesNeverClick(RunListener(c, ls[0], closest).0, ls[1..], closest);
    }
  }

  /** In enabled controls a press arms the click, keeps the mesh and dispatches nothing. */
  lemma PressArms(c: Controls)
    requires c.enabled
    ensures var pressed := Step(c, Down);
            pressed.0.clickArmed && pressed.0.mesh == c.mesh && pressed.1 == []
  {
  }

  /** A press followed directly by a click dispatches `click` with the index under the pointer. */
  lemma StillPressClicks(c: Controls, clicked: Option<nat>)
    requires c.enabled && c.mesh.Some?
    ensures Run(c, [Down, ClickAt(clicked)]).1 == [Click(clicked)]
  {
    var pressed := Step(c, Down);
    PressArms(c);
    var clicks := Step(pressed.0, ClickAt(clicked));
    assert clicks.1 == [Click(clicked)];
    RunTwo(c, Down, ClickAt(clicked));
    assert [] + clicks.1 == clicks.1;
  }

  /** After `detach`, a hover move throws: there is no mesh to raycast. */
  lemma DetachedHoverThrows(c: Controls, closest: Option<nat>)
    requires c.enabled && c.moveListeners == [HoverListener, GateListener]
    ensures Step(Step(c, Detach).0, Move(closest)).1 == [Threw]
  {
    DispatchTwo(Step(c, Detach).0, HoverListener, GateListener, closest);
  }
}
