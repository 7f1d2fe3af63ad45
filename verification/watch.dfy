/**
 * The observer proxy: an object whose property assignments are trapped, so
 * that every handler registered for a property is called with the assigned
 * value. Handlers are identified by a number; calling one is recorded as a
 * `Call` rather than run, because what a handler does is the caller's code.
 */
module Watch {
  import opened Wrappers

  type Prop = string

  /** A registered handler, by identity. */
  type HandlerId = nat

  /** The target's property values and the handler registry `_handlers`. */
  datatype Watched<V> = Watched(values: map<Prop, V>, handlers: map<Prop, seq<HandlerId>>)

  /** One handler invocation `handler(value)`. */
  datatype Call<V> = Call(handler: HandlerId, value: V)

  /** `watch(target)`: the target's properties, no handler registered. */
  function Create<V>(target: map<Prop, V>): (w: Watched<V>)
    ensures w.values == target && w.handlers == map[]
  {
    Watched(target, map[])
  }

  /** The handlers registered for `prop`, in registration order. */
  function Handlers<V>(w: Watched<V>, prop: Prop): seq<HandlerId> {
    if prop in w.handlers then w.handlers[prop] else []
  }

  /** One call per handler, in order, each with `value`. */
  function Calls<V>(hs: seq<HandlerId>, value: V): (r: seq<Call<V>>)
    ensures |r| == |hs| && forall i :: 0 <= i < |hs| ==> r[i] == Call(hs[i], value)
  {
    seq(|hs|, i requires 0 <= i < |hs| => Call(hs[i], value))
  }

  /**
   * The `set` trap: store the value, then call the property's handlers in
   * order with it; the trap reports success. The registry is looked up as an
   * own property only (see `SetAsWritten` for the inherited-name case).
   */
  function Set<V>(w: Watched<V>, prop: Prop, value: V): (r: (Watched<V>, seq<Call<V>>, bool))
    ensures r.0.values == w.values[prop := value] && r.0.handlers == w.handlers
    ensures r.2
    ensures forall c :: c in r.1 ==> c.value == value && c.handler in Handlers(w, prop)
  {
    (w.(values := w.values[prop := value]), Calls(Handlers(w, prop), value), true)
  }

  /** `watch(prop, h)`: append `h` to the property's list, creating the list if absent. */
  function Watch<V>(w: Watched<V>, prop: Prop, h: HandlerId): (r: Watched<V>)
    ensures r.values == w.values
    ensures prop in r.handlers && r.handlers[prop] == Handlers(w, prop) + [h]
    ensures forall q :: q != prop ==> Handlers(r, q) == Handlers(w, q)
  {
    w.(handlers := w.handlers[prop := Handlers(w, prop) + [h]])
  }

  /** Registering `hs` one after another on `prop`. */
  function WatchAll<V>(w: Watched<V>, prop: Prop, hs: seq<HandlerId>): Watched<V>
    decreases |hs|
  {
    if |hs| == 0 then w else Watch(WatchAll(w, prop, hs[..|hs| - 1]), prop, hs[|hs| - 1])
  }

  /** Registering `hs` on a property with no list leaves exactly `hs` as its list. */
  lemma {:induction false} WatchAllLists<V>(w: Watched<V>, prop: Prop, hs: seq<HandlerId>)
    requires prop !in w.handlers
    ensures Handlers(WatchAll(w, prop, hs), prop) == hs
    decreases |hs|
  {
    if |hs| > 0 {
      var init := hs[..|hs| - 1];
      WatchAllLists(w, prop, init);
      var before := WatchAll(w, prop, init);
      assert Handlers(WatchAll(w, prop, hs), prop) == Handlers(before, prop) + [hs[|hs| - 1]];
      assert init + [hs[|hs| - 1]] == hs;
    }
  }

  /**
   * Handlers fire in registration order: after registering `hs` on a
   * property with none, assigning it calls exactly `hs`, in that order,
   * each with the value.
   */
  lemma FiresInRegistrationOrder<V>(w: Watched<V>, prop: Prop, hs: seq<HandlerId>, value: V)
    requires prop !in w.handlers
    ensures Set(WatchAll(w, prop, hs), prop, value).1 == Calls(hs, value)
  {
    WatchAllLists(w, prop, hs);
  }

  /** A handler watched on one property is never called for another. */
  lemma OtherPropertySilent<V>(w: Watched<V>, watched: Prop, h: HandlerId, prop: Prop, value: V)
    requires watched != prop
    ensures Set(Watch(w, watched, h), prop, value).1 == Set(w, prop, value).1
  {
  }

  /**
   * Handlers fire even when the assigned value equals the stored one, and
   * assigning the same value again repeats the same calls and the same state.
   */
  lemma FiresWhenUnchanged<V>(w: Watched<V>, prop: Prop, value: V)
    requires prop in w.values && w.values[prop] == value
    ensures var r := Set(w, prop, value);
            r.0 == w && r.1 == Calls(Handlers(w, prop), value) && |r.1| == |Handlers(w, prop)|
  {
  }

  // ---------------------------------------------------------------------
  // the registry lookup as written

  /**
   * The names a plain object literal inherits from `Object.prototype`. The
   * registry `_handlers` is such a literal, so `_handlers[prop]` yields a
   * (truthy) function or object for these names even when no handler list
   * was ever created.
   */
  const Inherited: set<Prop> := {
    "constructor", "toString", "toLocaleString", "valueOf", "hasOwnProperty", "isPrototypeOf",
    "propertyIsEnumerable", "__proto__", "__defineGetter__", "__defineSetter__",
    "__lookupGetter__", "__lookupSetter__"}

  /** The exceptions the written lookup raises. */
  datatype TypeError = NotIterable | PushNotAFunction

  /** What an assignment through the trap as written leaves: state, handler calls, and the trap's outcome. */
  datatype SetOutcome<V> = SetOutcome(state: Watched<V>, calls: seq<Call<V>>, result: Result<bool, TypeError>)

  /**
   * The `set` trap as written: the value is stored first; then an inherited
   * name with no own list is truthy, and `for ... of` over a function throws.
   */
  function SetAsWritten<V>(w: Watched<V>, prop: Prop, value: V): (r: SetOutcome<V>)
    ensures r.state.values == w.values[prop := value] && r.state.handlers == w.handlers
    ensures r.result.Err? <==> prop !in w.handlers && prop in Inherited
  {
    var stored := w.(values := w.values[prop := value]);
    if prop in w.handlers then SetOutcome(stored, Calls(w.handlers[prop], value), Ok(true))
    else if prop in Inherited then SetOutcome(stored, [], Err(NotIterable))
    else SetOutcome(stored, [], Ok(true))
  }

  /** `watch(prop, h)` as written: an inherited name is truthy, so no list is created and `push` is undefined. */
  function WatchAsWritten<V>(w: Watched<V>, prop: Prop, h: HandlerId): (r: Result<Watched<V>, TypeError>)
    ensures r.Err? <==> prop !in w.handlers && prop in Inherited
  {
    if prop in w.handlers then Ok(w.(handlers := w.handlers[prop := w.handlers[prop] + [h]]))
    else if prop in Inherited then Err(PushNotAFunction)
    else Ok(w.(handlers := w.handlers[prop := [h]]))
  }

  /**
   * As written, assigning a property named like an `Object.prototype` member
   * (`toString`) throws after storing the value, and watching it throws too.
   */
  lemma InheritedNameThrows<V>(w: Watched<V>, value: V, h: HandlerId)
    requires "toString" !in w.handlers
    ensures SetAsWritten(w, "toString", value).result == Err(NotIterable)
    ensures SetAsWritten(w, "toString", value).state.values["toString"] == value
    ensures WatchAsWritten(w, "toString", h) == Err(PushNotAFunction)
  {
    assert "toString" in Inherited;
  }

  /**
   * For every other name, and for any name once it has its own list, the
   * written trap and registry agree with the own-property model: same state,
   * same calls, success.
   */
  lemma AsWrittenAgrees<V>(w: Watched<V>, prop: Prop, value: V, h: HandlerId)
    requires prop !in Inherited || prop in w.handlers
    ensures var r := SetAsWritten(w, prop, value);
            var s := Set(w, prop, value);
            r.state == s.0 && r.calls == s.1 && r.result == Ok(s.2)
    ensures WatchAsWritten(w, prop, h) == Ok(Watch(w, prop, h))
  {
    if prop !in w.handlers {
      assert Handlers(w, prop) + [h] == [h];
    }
  }
}
