/**
 * The hover transition both mouse controls run on every pointer move: compare
 * the index under the pointer with the remembered one and, when they differ,
 * leave the old node and enter the new one. An index is `undefined` when the
 * pointer is over no node (`None`); the JavaScript truthiness tests make index
 * 0 behave like `undefined` for the events, though not for the comparison.
 */
module Hover {
  import opened Wrappers

  /** `if (idx)`: defined and not 0. */
  predicate Truthy(idx: Option<nat>) {
    idx.Some? && idx.value != 0
  }

  datatype HoverEvent = NodeLeave(index: nat) | NodeEnter(index: nat)

  /**
   * `closestIdx != currentIdx`: leave `current` if truthy, enter `closest` if
   * truthy, remember `closest`.
   */
  function Transition(current: Option<nat>, closest: Option<nat>): (r: (Option<nat>, seq<HoverEvent>))
    ensures r.0 == closest
    ensures closest == current ==> r.1 == []
    ensures closest != current ==>
              r.1 == (if Truthy(current) then [NodeLeave(current.value)] else [])
                     + (if Truthy(closest) then [NodeEnter(closest.value)] else [])
  {
    if closest != current then
      var leave := if Truthy(current) then [NodeLeave(current.value)] else [];
      var enter := if Truthy(closest) then [NodeEnter(closest.value)] else [];
      (closest, leave + enter)
    else
      (current, [])
  }

  /** No hover event ever names node 0. */
  lemma NeverNodeZero(current: Option<nat>, closest: Option<nat>)
    ensures forall e :: e in Transition(current, closest).1 ==> e.index != 0
  {
  }

  /** The node a listener of the events believes is hovered: the index if truthy. */
  function Seen(idx: Option<nat>): Option<nat> {
    if Truthy(idx) then idx else None
  }

  /**
   * A listener's view of the events: from `open` (the node entered and not yet
   * left), replay them; `None` when a leave names another node than the open
   * one, or an enter comes while a node is still open.
   */
  function Replay(open: Option<nat>, events: seq<HoverEvent>): Option<Option<nat>>
    decreases |events|
  {
    if |events| == 0 then Some(open)
    else match events[0]
      case NodeLeave(i) => if open == Some(i) then Replay(None, events[1..]) else None
      case NodeEnter(i) => if open == None then Replay(Some(i), events[1..]) else None
  }

  /** The hover state after a run of pointer moves, with every event emitted on the way. */
  function Run(current: Option<nat>, moves: seq<Option<nat>>): (r: (Option<nat>, seq<HoverEvent>))
    ensures |moves| > 0 ==> r.0 == moves[|moves| - 1]
    ensures |moves| == 0 ==> r == (current, [])
    decreases |moves|
  {
    if |moves| == 0 then (current, [])
    else
      var step := Run(current, moves[..|moves| - 1]);
      var last := Transition(step.0, moves[|moves| - 1]);
      (last.0, step.1 + last.1)
  }

  lemma {:induction false} ReplayAppend(open: Option<nat>, a: seq<HoverEvent>, b: seq<HoverEvent>)
    requires Replay(open, a).Some?
    ensures Replay(open, a + b) == Replay(Replay(open, a).value, b)
    decreases |a|
  {
    if |a| > 0 {
      assert (a + b)[0] == a[0];
      assert (a + b)[1..] == a[1..] + b;
      match a[0]
      case NodeLeave(i) => ReplayAppend(None, a[1..], b);
      case NodeEnter(i) => ReplayAppend(Some(i), a[1..], b);
    } else {
      assert a + b == b;
    }
  }

  /**
   * Over any run of moves, enters and leaves pair up: every leave names the
   * node entered last, no node is entered twice without a leave between, and
   * at the end the node left open is the remembered index when truthy.
   */
  lemma {:induction false} EventsPairUp(current: Option<nat>, moves: seq<Option<nat>>)
    ensures Replay(Seen(current), Run(current, moves).1) == Some(Seen(Run(current, moves).0))
    decreases |moves|
  {
    if |moves| > 0 {
      var init := moves[..|moves| - 1];
      EventsPairUp(current, init);
      var step := Run(current, init);
      ReplayAppend(Seen(current), step.1, Transition(step.0, moves[|moves| - 1]).1);
      TransitionReplays(step.0, moves[|moves| - 1]);
    }
  }

  /** One transition's events take a listener from the old truthy index to the new one. */
  lemma TransitionReplays(current: Option<nat>, closest: Option<nat>)
    ensures Replay(Seen(current), Transition(current, closest).1) == Some(Seen(closest))
  {
    var events := Transition(current, closest).1;
    var enter := if Truthy(closest) then [NodeEnter(closest.value)] else [];
    if closest != current {
      assert Replay(None, enter) == Some(Seen(closest)) by {
        if Truthy(closest) {
          assert enter[1..] == [];
        }
      }
      if Truthy(current) {
        assert events == [NodeLeave(current.value)] + enter;
        assert events[1..] == enter;
      } else {
        assert events == enter;
      }
    }
  }
}
