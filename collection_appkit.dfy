/** The macOS bridge: `CollectionCell_AppKit`, `CollectionView_AppKit` and its
    `Coordinator`, the data source of an `NSCollectionView`. */
module AppKitCollection {
  import opened Views
  import opened Recycling

  /** `CollectionCell_AppKit`: a reusable collection view item whose view
      shows one hosting view at a time. `subviews` is the item view's child list. */
  class CollectionCell<C> {
    var subviews: seq<object>
    var hostingView: HostingView?<C>

    ghost predicate Valid()
      reads this
    {
      Distinct(subviews)
    }

    constructor ()
      ensures Valid() && subviews == [] && hostingView == null
    {
      subviews := [];
      hostingView := null;
    }

    /** Removes every subview of the item's view (and the old hosting view),
        then attaches a new hosting view for `view` and remembers it. */
    method Configure(view: C)
      requires Valid()
      modifies this
      ensures Valid()
      ensures hostingView != null && fresh(hostingView) && hostingView.rootView == view
      ensures subviews == [hostingView]
      ensures forall k :: 0 <= k < |old(subviews)| ==> old(subviews)[k] !in subviews
    {
      var detached := subviews;
      var i := 0;
      while i < |detached|
        invariant 0 <= i <= |detached|
        invariant subviews == detached[i..]
        invariant Distinct(subviews)
      {
        WithoutFirst(subviews);
        subviews := Without(subviews, detached[i]);
        i := i + 1;
      }
      if hostingView != null {
        subviews := Without(subviews, hostingView);
      }
      var newHostingView := new HostingView(view);
      subviews := subviews + [newHostingView];
      hostingView := newHostingView;
    }
  }

  /** What `collectionView(_:itemForRepresentedObjectAt:)` hands back: the
      dequeued cell, or a fresh empty `NSCollectionViewItem` when the dequeued
      item is not a `CollectionCell_AppKit`. */
  datatype CollectionItem<C> = ReusedCell(cell: CollectionCell<C>) | EmptyItem

  /** `CollectionView_AppKit.Coordinator`: the data source and delegate.
      The ghost fields record every call it served (`history`, from the
      state `start` it was created in) and every firing of the end-of-list
      callback (`signals`); `Valid` ties them to the reference `Replay`. */
  class Coordinator<Item, C> {
    var items: seq<Item>
    const content: Item -> C
    const onLastItemAppear: Option<Action>
    var collectionView: CollectionViewHandle?<C>
    ghost var signals: seq<Signal>
    ghost const start: ControllerState<Item>
    ghost var history: seq<Event<Item>>

    ghost function State(): ControllerState<Item>
      reads this
    {
      ControllerState(items, onLastItemAppear)
    }

    ghost predicate Valid()
      reads this
    {
      Replay(start, history) == Some(Outcome(State(), signals))
    }

    constructor (items: seq<Item>, content: Item -> C, onLastItemAppear: Option<Action>)
      ensures Valid() && start == State()
      ensures this.items == items && this.content == content && this.onLastItemAppear == onLastItemAppear
      ensures collectionView == null && signals == [] && history == []
    {
      this.items := items;
      this.content := content;
      this.onLastItemAppear := onLastItemAppear;
      collectionView := null;
      signals := [];
      start := ControllerState(items, onLastItemAppear);
      history := [];
    }

    /** Across everything this coordinator has served, the callback has fired
        exactly once per bind of the then-last index with a callback registered. */
    lemma SignalsMatchFiringCalls()
      requires Valid()
      ensures |signals| == |FiringCalls(start, history)|
    {
      SignalsCountLastBinds(start, history);
    }

    /** The snapshot it serves, and so the count it answers, is the latest one it was given. */
    lemma CountIsLatestSnapshot(j: int)
      requires Valid()
      requires 0 <= j < |history| && history[j].UpdateItems?
      requires forall k :: j < k < |history| ==> !history[k].UpdateItems?
      ensures items == history[j].newItems
    {
      SnapshotIsLatestUpdate(start, history, j);
    }

    /** Replaces the snapshot wholesale; nothing else changes. */
    method UpdateItems(newItems: seq<Item>)
      requires Valid()
      modifies this
      ensures Valid()
      ensures items == newItems
      ensures history == old(history) + [Event.UpdateItems(newItems)]
      ensures signals == old(signals) && collectionView == old(collectionView)
    {
      ReplaySnoc(start, history, Event.UpdateItems(newItems));
      assert signals + [] == signals;
      items := newItems;
      history := history + [Event.UpdateItems(newItems)];
    }

    /** `numberOfSections(in:)`: the layout is a single section. */
    method NumberOfSections() returns (n: int)
      ensures n == 1
    {
      n := 1;
    }

    /** `collectionView(_:numberOfItemsInSection:)`: the current snapshot's length,
        whatever section is asked about. */
    method NumberOfItemsInSection(section: int) returns (n: int)
      ensures n == |items|
    {
      n := |items|;
    }

    /** The end-of-list check that ends a bind: when `index` is the snapshot's
        last index and a callback is registered, the callback fires once. It is
        the tail of the bind method below, which calls it after configuring the
        cell, and not a call the collection view makes on its own. */
    method NotifyIfLast(index: int)
      requires Valid() && 0 <= index < |items|
      modifies this
      ensures Valid()
      ensures items == old(items) && collectionView == old(collectionView)
      ensures history == old(history) + [Bind(index)]
      ensures signals == old(signals) + (if IsLastIndex(items, index) && onLastItemAppear.Some?
                                         then [Signal(onLastItemAppear.value, index)] else [])
    {
      ReplayBind(start, history, State(), signals, index);
      ghost var next := Replay(start, history + [Bind(index)]);
      if index == |items| - 1 && onLastItemAppear.Some? {
        signals := signals + [Signal(onLastItemAppear.value, index)];
      } else {
        assert signals + [] == signals;
      }
      history := history + [Bind(index)];
      assert next == Some(Outcome(State(), signals));
    }

    /** `collectionView(_:itemForRepresentedObjectAt:)`. `made` is the item the
        collection view dequeued, or null when it is not a `CollectionCell_AppKit`;
        in that case no item is read, nothing is bound and nothing fires. */
    method ItemForRepresentedObjectAt(made: CollectionCell?<AnyView<C>>, index: int) returns (r: CollectionItem<AnyView<C>>)
      requires Valid()
      requires made != null ==> made.Valid() && 0 <= index < |items|
      modifies this, made
      ensures Valid()
      ensures items == old(items) && collectionView == old(collectionView)
      ensures made == null ==> r == EmptyItem && signals == old(signals) && history == old(history)
      ensures made != null ==>
                && r == ReusedCell(made)
                && made.Valid()
                && made.hostingView != null && fresh(made.hostingView)
                && made.hostingView.rootView == AnyView(content(items[index]))
                && made.subviews == [made.hostingView]
      ensures made != null ==> history == old(history) + [Bind(index)]
      ensures made != null ==> signals == old(signals) + (if IsLastIndex(items, index) && onLastItemAppear.Some?
                                                          then [Signal(onLastItemAppear.value, index)] else [])
    {
      if made == null {
        return EmptyItem;
      }
      var item := items[index];
      made.Configure(AnyView(content(item)));
      NotifyIfLast(index);
      r := ReusedCell(made);
    }
  }

  /** `CollectionView_AppKit`: the representable value built by the facade. */
  datatype CollectionView<!Item, C> = CollectionView(
    items: seq<Item>,
    onLastItemAppear: Option<Action>,
    content: Item -> C,
    scrollDirection: ScrollDirection,
    estimatedItemSize: EstimatedSize<C>)

  /** `CollectionView_AppKit.init`: stores its arguments (the callback and
      the scroll direction have defaults, none and vertical) and, once, measures
      the first item's content to estimate the item size; with no items the
      estimate stays the unmeasured default, `.zero`. */
  function NewCollectionView<Item, C>(items: seq<Item>, onLastItemAppear: Option<Action> := None, content: Item -> C,
                                      scrollDirection: ScrollDirection := ScrollDirection.Vertical): (r: CollectionView<Item, C>)
    ensures r.items == items && r.onLastItemAppear == onLastItemAppear && r.content == content
    ensures r.scrollDirection == scrollDirection
    ensures r.estimatedItemSize == ZeroSize <==> items == []
    ensures items != [] ==> r.estimatedItemSize == IntrinsicSize(content(items[0]))
  {
    var estimated := if items != [] then IntrinsicSize(content(items[0])) else ZeroSize;
    CollectionView(items, onLastItemAppear, content, scrollDirection, estimated)
  }

  /** `makeCoordinator()`: a coordinator over the representable's items, content and callback. */
  method MakeCoordinator<Item, C>(rep: CollectionView<Item, C>) returns (c: Coordinator<Item, C>)
    ensures fresh(c) && c.Valid() && c.history == [] && c.signals == []
    ensures c.items == rep.items && c.content == rep.content && c.onLastItemAppear == rep.onLastItemAppear
    ensures c.collectionView == null
  {
    c := new Coordinator(rep.items, rep.content, rep.onLastItemAppear);
  }

  /** `makeNSViewController(context:)`, reduced to the collection view it
      creates (flow layout direction and estimated size) and the weak
      reference the coordinator keeps to it. */
  method MakeNSViewController<Item, C>(rep: CollectionView<Item, C>, coordinator: Coordinator<Item, C>)
    returns (collectionView: CollectionViewHandle<C>)
    requires coordinator.Valid()
    modifies coordinator
    ensures fresh(collectionView) && collectionView.reloads == []
    ensures collectionView.scrollDirection == rep.scrollDirection
    ensures collectionView.estimatedItemSize == rep.estimatedItemSize
    ensures coordinator.collectionView == collectionView
    ensures coordinator.Valid() && coordinator.items == old(coordinator.items)
    ensures coordinator.history == old(coordinator.history) && coordinator.signals == old(coordinator.signals)
  {
    collectionView := new CollectionViewHandle(rep.scrollDirection, rep.estimatedItemSize);
    coordinator.collectionView := collectionView;
  }

  /** `updateNSViewController(_:context:)`: first the coordinator takes the
      representable's current items, then the collection view (if it is still
      there) reloads, so the count it re-queries is the new snapshot's. Only
      the items are pushed: the content and callback are constants of the
      coordinator, fixed when `makeCoordinator()` created it. */
  method UpdateNSViewController<Item, C>(rep: CollectionView<Item, C>, coordinator: Coordinator<Item, C>)
    requires coordinator.Valid()
    modifies coordinator, coordinator.collectionView
    ensures coordinator.Valid()
    ensures coordinator.items == rep.items
    ensures coordinator.history == old(coordinator.history) + [Event.UpdateItems(rep.items)]
    ensures coordinator.signals == old(coordinator.signals)
    ensures coordinator.collectionView == old(coordinator.collectionView)
    ensures coordinator.collectionView != null ==>
              coordinator.collectionView.reloads == old(coordinator.collectionView.reloads) + [|rep.items|]
  {
    coordinator.UpdateItems(rep.items);
    if coordinator.collectionView != null {
      coordinator.collectionView.ReloadData(|coordinator.items|);
    }
  }
}
