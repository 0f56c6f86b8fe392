/** The recycling protocol both coordinators implement, stated on values.

    A coordinator holds a snapshot of the items and an optional end-of-list
    callback. The collection view asks it for counts and binds cells by
    index; a host update replaces the snapshot wholesale. `Replay` is the
    reference meaning of any sequence of such calls, and the lemmas below
    state what it guarantees across many calls: when the callback fires,
    how often, and which snapshot a count query sees. */
module Recycling {
  import opened Views

  /** The part of a coordinator that the protocol reads and writes. */
  datatype ControllerState<Item> = ControllerState(items: seq<Item>, onLastItemAppear: Option<Action>)

  /** A call into a coordinator: a snapshot update from the host, a bind
      request from the collection view, or (UIKit only) a new callback. */
  datatype Event<Item> =
    | UpdateItems(newItems: seq<Item>)
    | Bind(index: int)
    | SetCallback(callback: Option<Action>)

  /** The state after some calls and every callback firing they caused, in order. */
  datatype Outcome<Item> = Outcome(state: ControllerState<Item>, signals: seq<Signal>)

  /** The end-of-list test both coordinators apply to a bound index. */
  predicate IsLastIndex<Item>(items: seq<Item>, index: int)
  {
    index == |items| - 1
  }

  /** A bind reads `items[index]` without a guard, so only an index of the
      current snapshot is served; any other index traps. */
  predicate Admissible<Item>(st: ControllerState<Item>, ev: Event<Item>)
  {
    ev.Bind? ==> 0 <= ev.index < |st.items|
  }

  /** One call. */
  function Step<Item>(st: ControllerState<Item>, ev: Event<Item>): (o: Outcome<Item>)
    requires Admissible(st, ev)
    ensures |o.signals| <= 1
    ensures o.signals != [] <==> ev.Bind? && IsLastIndex(st.items, ev.index) && st.onLastItemAppear.Some?
    ensures o.signals != [] ==> o.signals[0] == Signal(st.onLastItemAppear.value, ev.index)
    ensures o.state.items == (if ev.UpdateItems? then ev.newItems else st.items)
    ensures o.state.onLastItemAppear == (if ev.SetCallback? then ev.callback else st.onLastItemAppear)
  {
    match ev
    case UpdateItems(newItems) => Outcome(st.(items := newItems), [])
    case SetCallback(callback) => Outcome(st.(onLastItemAppear := callback), [])
    case Bind(index) =>
      var fired := if IsLastIndex(st.items, index) && st.onLastItemAppear.Some?
                   then [Signal(st.onLastItemAppear.value, index)] else [];
      Outcome(st, fired)
  }

  /** The outcome of a sequence of calls from `st`, or `None` if one of the
      binds asks for an index outside the snapshot in force at that moment. */
  function Replay<Item>(st: ControllerState<Item>, evs: seq<Event<Item>>): (r: Option<Outcome<Item>>)
    ensures r.Some? ==> |r.value.signals| <= |evs|
  {
    if evs == [] then Some(Outcome(st, []))
    else
      match Replay(st, evs[..|evs| - 1])
      case None => None
      case Some(before) =>
        var ev := evs[|evs| - 1];
        if Admissible(before.state, ev) then
          var o := Step(before.state, ev);
          Some(Outcome(o.state, before.signals + o.signals))
        else None
  }

  /** Appending one call to a trace is one more `Step`. */
  lemma ReplaySnoc<Item>(st: ControllerState<Item>, evs: seq<Event<Item>>, ev: Event<Item>)
    requires Replay(st, evs).Some? && Admissible(Replay(st, evs).value.state, ev)
    ensures Replay(st, evs + [ev]) == Some(Outcome(Step(Replay(st, evs).value.state, ev).state,
                                                   Replay(st, evs).value.signals + Step(Replay(st, evs).value.state, ev).signals))
  {
    assert (evs + [ev])[..|evs|] == evs;
  }

  /** Appending a served bind leaves the state as it was and adds one firing
      exactly when the index is the last one and a callback is registered. */
  lemma ReplayBind<Item>(st: ControllerState<Item>, evs: seq<Event<Item>>, now: ControllerState<Item>,
                         signals: seq<Signal>, index: int)
    requires Replay(st, evs) == Some(Outcome(now, signals)) && 0 <= index < |now.items|
    ensures Replay(st, evs + [Bind(index)])
            == Some(Outcome(now, signals + (if IsLastIndex(now.items, index) && now.onLastItemAppear.Some?
                                            then [Signal(now.onLastItemAppear.value, index)] else [])))
  {
    ReplaySnoc(st, evs, Bind(index));
  }

  /** Every bind of `evs` asks for an index of the snapshot in force just before it. */
  ghost predicate BindsInRange<Item>(st: ControllerState<Item>, evs: seq<Event<Item>>)
  {
    forall j :: 0 <= j < |evs| && evs[j].Bind? ==>
      Replay(st, evs[..j]).Some? && 0 <= evs[j].index < |Replay(st, evs[..j]).value.state.items|
  }

  /** Dropping the last call keeps the binds in range. */
  lemma BindsInRangePrefix<Item>(st: ControllerState<Item>, evs: seq<Event<Item>>)
    requires evs != [] && BindsInRange(st, evs)
    ensures BindsInRange(st, evs[..|evs| - 1])
  {
    var p := evs[..|evs| - 1];
    forall j | 0 <= j < |p| && p[j].Bind?
      ensures Replay(st, p[..j]).Some? && 0 <= p[j].index < |Replay(st, p[..j]).value.state.items|
    {
      assert evs[j] == p[j] && evs[..j] == p[..j];
    }
  }

  /** A trace served to the end read every bind inside the snapshot in force
      at that moment. */
  lemma {:induction false} ServedTraceBindsInRange<Item>(st: ControllerState<Item>, evs: seq<Event<Item>>)
    requires Replay(st, evs).Some?
    ensures BindsInRange(st, evs)
  {
    if evs != [] {
      var p := evs[..|evs| - 1];
      ServedTraceBindsInRange(st, p);
      forall j | 0 <= j < |evs| && evs[j].Bind?
        ensures Replay(st, evs[..j]).Some? && 0 <= evs[j].index < |Replay(st, evs[..j]).value.state.items|
      {
        if j < |p| {
          assert evs[j] == p[j] && evs[..j] == p[..j];
        } else {
          assert evs[..j] == p;
        }
      }
    }
  }

  /** A trace whose binds all read inside the snapshot in force is served to
      the end: only an out-of-range bind traps. */
  lemma {:induction false} BindsInRangeServed<Item>(st: ControllerState<Item>, evs: seq<Event<Item>>)
    requires BindsInRange(st, evs)
    ensures Replay(st, evs).Some?
  {
    if evs != [] {
      var p := evs[..|evs| - 1];
      BindsInRangePrefix(st, evs);
      BindsInRangeServed(st, p);
      assert evs[..|p|] == p;
    }
  }

  /** Call `j` of `evs` binds the last index of the snapshot in force just
      before it, while a callback is registered. */
  ghost predicate FiresAt<Item>(st: ControllerState<Item>, evs: seq<Event<Item>>, j: int)
    requires 0 <= j < |evs|
  {
    var before := Replay(st, evs[..j]);
    before.Some? && evs[j].Bind? && before.value.state.onLastItemAppear.Some?
    && IsLastIndex(before.value.state.items, evs[j].index)
  }

  /** Calls before the last one fire exactly as they did without it. */
  lemma FiresAtPrefix<Item>(st: ControllerState<Item>, evs: seq<Event<Item>>, j: int)
    requires 0 <= j < |evs| - 1
    ensures FiresAt(st, evs, j) == FiresAt(st, evs[..|evs| - 1], j)
  {
    assert evs[..j] == evs[..|evs| - 1][..j];
  }

  /** The last call adds one firing exactly when it binds the last index with a callback. */
  lemma LastCallSignals<Item>(st: ControllerState<Item>, evs: seq<Event<Item>>)
    requires evs != [] && Replay(st, evs).Some?
    ensures Replay(st, evs[..|evs| - 1]).Some?
    ensures |Replay(st, evs).value.signals|
            == |Replay(st, evs[..|evs| - 1]).value.signals| + (if FiresAt(st, evs, |evs| - 1) then 1 else 0)
  {
  }

  /** The calls of `evs` that fire the callback. */
  ghost function FiringCalls<Item>(st: ControllerState<Item>, evs: seq<Event<Item>>): set<int>
  {
    set j | 0 <= j < |evs| && FiresAt(st, evs, j)
  }

  /** The firing calls of a trace are those of its prefix, plus the last call if it fires. */
  lemma FiringCallsSnoc<Item>(st: ControllerState<Item>, evs: seq<Event<Item>>)
    requires evs != []
    ensures FiringCalls(st, evs) == FiringCalls(st, evs[..|evs| - 1])
                                    + (if FiresAt(st, evs, |evs| - 1) then {|evs| - 1} else {})
  {
    forall j | 0 <= j < |evs| - 1
      ensures FiresAt(st, evs, j) == FiresAt(st, evs[..|evs| - 1], j)
    {
      FiresAtPrefix(st, evs, j);
    }
  }

  /** The callback fires exactly once per bind of the last index of the
      current snapshot (with a callback registered), and at no other call. */
  lemma {:induction false} SignalsCountLastBinds<Item>(st: ControllerState<Item>, evs: seq<Event<Item>>)
    requires Replay(st, evs).Some?
    ensures |Replay(st, evs).value.signals| == |FiringCalls(st, evs)|
  {
    if evs == [] {
      assert FiringCalls(st, evs) == {};
    } else {
      var p := evs[..|evs| - 1];
      LastCallSignals(st, evs);
      SignalsCountLastBinds(st, p);
      FiringCallsSnoc(st, evs);
      assert |evs| - 1 !in FiringCalls(st, p);
    }
  }

  /** With an empty snapshot, and only empty snapshots supplied afterwards,
      no bind can be served, so the callback never fires. */
  lemma {:induction false} NoSignalsFromEmptySnapshots<Item>(st: ControllerState<Item>, evs: seq<Event<Item>>)
    requires st.items == []
    requires forall j :: 0 <= j < |evs| && evs[j].UpdateItems? ==> evs[j].newItems == []
    requires Replay(st, evs).Some?
    ensures Replay(st, evs).value.signals == []
    ensures Replay(st, evs).value.state.items == []
    ensures forall j :: 0 <= j < |evs| ==> !evs[j].Bind?
  {
    if evs != [] {
      var p := evs[..|evs| - 1];
      NoSignalsFromEmptySnapshots(st, p);
    }
  }

  /** A count query answers the length of the snapshot of the latest update,
      whatever binds and callback changes came after it. */
  lemma {:induction false} SnapshotIsLatestUpdate<Item>(st: ControllerState<Item>, evs: seq<Event<Item>>, j: int)
    requires Replay(st, evs).Some?
    requires 0 <= j < |evs| && evs[j].UpdateItems?
    requires forall k :: j < k < |evs| ==> !evs[k].UpdateItems?
    ensures Replay(st, evs).value.state.items == evs[j].newItems
  {
    var p := evs[..|evs| - 1];
    if j < |evs| - 1 {
      SnapshotIsLatestUpdate(st, p, j);
    }
  }

  /** Without any update, the snapshot is the one the coordinator was created with. */
  lemma {:induction false} SnapshotWithoutUpdates<Item>(st: ControllerState<Item>, evs: seq<Event<Item>>)
    requires Replay(st, evs).Some?
    requires forall k :: 0 <= k < |evs| ==> !evs[k].UpdateItems?
    ensures Replay(st, evs).value.state.items == st.items
  {
    if evs != [] {
      SnapshotWithoutUpdates(st, evs[..|evs| - 1]);
    }
  }

  /** Supplying the same snapshot twice in a row is the same as supplying it once. */
  lemma UpdateIdempotent<Item>(st: ControllerState<Item>, evs: seq<Event<Item>>, xs: seq<Item>)
    requires Replay(st, evs).Some?
    ensures Replay(st, evs + [UpdateItems(xs), UpdateItems(xs)]) == Replay(st, evs + [UpdateItems(xs)])
  {
    var once := evs + [UpdateItems(xs)];
    ReplaySnoc(st, evs, UpdateItems(xs));
    var o := Replay(st, once).value;
    assert o.state.items == xs;
    ReplaySnoc(st, once, UpdateItems(xs));
    assert evs + [UpdateItems(xs), UpdateItems(xs)] == once + [UpdateItems(xs)];
    assert Step(o.state, UpdateItems(xs)) == Outcome(o.state, []);
    assert o.signals + [] == o.signals;
  }
}
