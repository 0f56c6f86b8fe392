/** The iOS bridge: `CollectionCell_UIKit`, `CollectionView_UIKit` and its
    `Coordinator`, the data source of a `UICollectionView`. */
module UIKitCollection {
  import opened Views
  import opened Recycling

  /** `CollectionCell_UIKit`: a reusable cell whose content view shows the
      view of one hosting controller at a time. `contentSubviews` is the
      content view's child list; `hosted` (ghost) is every hosting view the
      cell has ever attached, so `HostedChildren` are the children it put there. */
  class CollectionCell<C> {
    var contentSubviews: seq<object>
    var hostingController: HostingController?<AnyView<C>>
    ghost var hosted: set<object>

    ghost function HostedChildren(): seq<object>
      reads this
    {
      Keep(contentSubviews, hosted)
    }

    /** The content view holds the current hosting controller's view and no
        other view this cell ever hosted. */
    ghost predicate Valid()
      reads this
    {
      HostedChildren() == (if hostingController == null then [] else [hostingController.view])
    }

    /** `init(frame:)`: an empty content view. */
    constructor ()
      ensures Valid() && contentSubviews == [] && hostingController == null && hosted == {}
    {
      contentSubviews := [];
      hostingController := null;
      hosted := {};
    }

    /** Detaches the previous hosting controller's view (if any), then wraps
        `view` in a new hosting controller and attaches its view. Children the
        cell did not add are left where they are. */
    method Configure(view: C)
      requires Valid()
      modifies this
      ensures Valid()
      ensures hostingController != null && fresh(hostingController) && fresh(hostingController.view)
      ensures hostingController.rootView == AnyView(view)
      ensures contentSubviews == (if old(hostingController) == null then old(contentSubviews)
                                  else Without(old(contentSubviews), old(hostingController).view))
                                 + [hostingController.view]
      ensures old(hostingController) != null ==> old(hostingController).view !in contentSubviews
      ensures HostedChildren() == [hostingController.view]
      ensures hosted == old(hosted) + {hostingController.view}
    {
      var kept := contentSubviews;
      if hostingController != null {
        kept := Without(contentSubviews, hostingController.view);
        KeepWithout(contentSubviews, hostingController.view, hosted);
        assert Keep(kept, hosted) == [];
      }
      var controller := new HostingController(AnyView(view));
      KeepIgnoresAbsent(kept, hosted, controller.view);
      KeepAppend(kept, [controller.view], hosted + {controller.view});
      contentSubviews := kept + [controller.view];
      hostingController := controller;
      hosted := hosted + {controller.view};
    }
  }

  /** `CollectionView_UIKit.Coordinator`. As for the AppKit coordinator,
      `history` and `signals` record the calls served and the callback
      firings, and `Valid` ties them to `Replay`. Unlike it, the callback is
      a variable that is set after construction. */
  class Coordinator<Item, C> {
    var items: seq<Item>
    var content: Item -> C
    var onLastItemAppear: Option<Action>
    ghost var signals: seq<Signal>
    ghost const start: ControllerState<Item>
    ghost var history: seq<Event<Item>>

    ghost function State(): ControllerState<Item>
      reads this
    {
      ControllerState(items, onLastItemAppear)
    }

    ghost predicate Valid()
      reads this
    {
      Replay(start, history) == Some(Outcome(State(), signals))
    }

    /** `init(items:content:)`: no callback yet. */
    constructor (items: seq<Item>, content: Item -> C)
      ensures Valid() && start == State()
      ensures this.items == items && this.content == content && onLastItemAppear == None
      ensures signals == [] && history == []
    {
      this.items := items;
      this.content := content;
      onLastItemAppear := None;
      signals := [];
      start := ControllerState(items, None);
      history := [];
    }

    /** Assignment to the `onLastItemAppear` property. */
    method SetOnLastItemAppear(callback: Option<Action>)
      requires Valid()
      modifies this
      ensures Valid()
      ensures onLastItemAppear == callback
      ensures items == old(items) && content == old(content) && signals == old(signals)
      ensures history == old(history) + [SetCallback(callback)]
    {
      ReplaySnoc(start, history, SetCallback(callback));
      assert signals + [] == signals;
      onLastItemAppear := callback;
      history := history + [SetCallback(callback)];
    }

    /** Across everything this coordinator has served, the callback has fired
        exactly once per bind of the then-last index with a callback registered. */
    lemma SignalsMatchFiringCalls()
      requires Valid()
      ensures |signals| == |FiringCalls(start, history)|
    {
      SignalsCountLastBinds(start, history);
    }

    /** The snapshot it serves, and so the count it answers, is the latest one it was given. */
    lemma CountIsLatestSnapshot(j: int)
      requires Valid()
      requires 0 <= j < |history| && history[j].UpdateItems?
      requires forall k :: j < k < |history| ==> !history[k].UpdateItems?
      ensures items == history[j].newItems
    {
      SnapshotIsLatestUpdate(start, history, j);
    }

    /** Replaces the snapshot wholesale; nothing else changes. */
    method UpdateItems(newItems: seq<Item>)
      requires Valid()
      modifies this
      ensures Valid()
      ensures items == newItems
      ensures history == old(history) + [Event.UpdateItems(newItems)]
      ensures content == old(content) && onLastItemAppear == old(onLastItemAppear) && signals == old(signals)
    {
      ReplaySnoc(start, history, Event.UpdateItems(newItems));
      assert signals + [] == signals;
      items := newItems;
      history := history + [Event.UpdateItems(newItems)];
    }

    /** `collectionView(_:numberOfItemsInSection:)`: the current snapshot's length. */
    method NumberOfItemsInSection(section: int) returns (n: int)
      ensures n == |items|
    {
      n := |items|;
    }

    /** The end-of-list check that ends a bind: when `index` is the snapshot's
        last index and a callback is registered, the callback fires once. It is
        the tail of the bind method below, which calls it after configuring the
        cell, and not a call the collection view makes on its own. */
    method NotifyIfLast(index: int)
      requires Valid() && 0 <= index < |items|
      modifies this
      ensures Valid()
      ensures items == old(items) && content == old(content) && onLastItemAppear == old(onLastItemAppear)
      ensures history == old(history) + [Bind(index)]
      ensures signals == old(signals) + (if IsLastIndex(items, index) && onLastItemAppear.Some?
                                         then [Signal(onLastItemAppear.value, index)] else [])
    {
      ReplayBind(start, history, State(), signals, index);
      ghost var next := Replay(start, history + [Bind(index)]);
      if index == |items| - 1 && onLastItemAppear.Some? {
        signals := signals + [Signal(onLastItemAppear.value, index)];
      } else {
        assert signals + [] == signals;
      }
      history := history + [Bind(index)];
      assert next == Some(Outcome(State(), signals));
    }

    /** `collectionView(_:cellForItemAt:)`. The dequeued cell is force-cast to
        `CollectionCell_UIKit`, which the parameter's type stands for; the
        item is read without a guard, so the index must be in range. */
    method CellForItemAt(cell: CollectionCell<C>, index: int) returns (r: CollectionCell<C>)
      requires Valid() && cell.Valid()
      requires 0 <= index < |items|
      modifies this, cell
      ensures Valid() && r == cell && cell.Valid()
      ensures items == old(items) && content == old(content) && onLastItemAppear == old(onLastItemAppear)
      ensures cell.hostingController != null && fresh(cell.hostingController)
      ensures cell.hostingController.rootView == AnyView(content(items[index]))
      ensures cell.HostedChildren() == [cell.hostingController.view]
      ensures cell.hosted == old(cell.hosted) + {cell.hostingController.view}
      ensures cell.contentSubviews == (if old(cell.hostingController) == null then old(cell.contentSubviews)
                                       else Without(old(cell.contentSubviews), old(cell.hostingController).view))
                                      + [cell.hostingController.view]
      ensures old(cell.hostingController) != null ==> old(cell.hostingController).view !in cell.contentSubviews
      ensures history == old(history) + [Bind(index)]
      ensures signals == old(signals) + (if IsLastIndex(items, index) && onLastItemAppear.Some?
                                         then [Signal(onLastItemAppear.value, index)] else [])
    {
      var item := items[index];
      cell.Configure(content(item));
      NotifyIfLast(index);
      r := cell;
    }
  }

  /** `CollectionView_UIKit`: the representable value built by the facade;
      its `init` stores its arguments, with no callback by default. */
  datatype CollectionView<!Item, C> = CollectionView(
    items: seq<Item>,
    content: Item -> C,
    scrollDirection: ScrollDirection,
    onLastItemAppear: Option<Action> := None)

  /** `makeCoordinator()`: a coordinator created over the representable's
      items and content, whose callback property is then set to the representable's. */
  method MakeCoordinator<Item, C>(rep: CollectionView<Item, C>) returns (c: Coordinator<Item, C>)
    ensures fresh(c) && c.Valid() && c.signals == []
    ensures c.items == rep.items && c.content == rep.content && c.onLastItemAppear == rep.onLastItemAppear
    ensures c.start == ControllerState(rep.items, None) && c.history == [SetCallback(rep.onLastItemAppear)]
  {
    c := new Coordinator(rep.items, rep.content);
    c.SetOnLastItemAppear(rep.onLastItemAppear);
  }

  /** `makeUIViewController(context:)`, reduced to the collection view it
      creates: the representable's scroll direction and self-sizing items. */
  method MakeUIViewController<Item, C>(rep: CollectionView<Item, C>) returns (collectionView: CollectionViewHandle<C>)
    ensures fresh(collectionView) && collectionView.reloads == []
    ensures collectionView.scrollDirection == rep.scrollDirection
    ensures collectionView.estimatedItemSize == AutomaticSize
  {
    collectionView := new CollectionViewHandle(rep.scrollDirection, AutomaticSize);
  }

  /** `updateUIViewController(_:context:)`: first the coordinator takes the
      representable's current items, then the controller's collection view
      (if it has one) reloads, so the count it re-queries is the new snapshot's.
      Only the items are pushed: the content and callback stay those captured
      by `makeCoordinator()`. */
  method UpdateUIViewController<Item, C>(rep: CollectionView<Item, C>, collectionView: CollectionViewHandle?<C>,
                                         coordinator: Coordinator<Item, C>)
    requires coordinator.Valid()
    modifies coordinator, collectionView
    ensures coordinator.Valid()
    ensures coordinator.items == rep.items
    ensures coordinator.history == old(coordinator.history) + [Event.UpdateItems(rep.items)]
    ensures coordinator.signals == old(coordinator.signals)
    ensures coordinator.content == old(coordinator.content)
    ensures coordinator.onLastItemAppear == old(coordinator.onLastItemAppear)
    ensures collectionView != null ==> collectionView.reloads == old(collectionView.reloads) + [|rep.items|]
  {
    coordinator.UpdateItems(rep.items);
    if collectionView != null {
      collectionView.ReloadData(|coordinator.items|);
    }
  }
}
