/** Four client scenarios, from the facade down to a bound cell, that rely only on
    the contracts of the modules they call. They use the preview's data: the
    items 0 through 300. */
module Scenarios {
  import opened Views
  import opened EthicalListView
  import AppKit = AppKitCollection
  import UIKit = UIKitCollection

  /** A vertical list on macOS: binding index 150 fires nothing, binding the
      last index (300) fires the callback exactly once, and rebinding the same
      cell leaves only the new content in it. */
  method VerticalListOnMacOS()
  {
    var items := seq(301, i => i);
    var action := Action(7);
    var list := WithOnLastItemAppear(ListView.Vertical(items, content := (i: int) => i), action);
    var body := BodyOf(list, MacOS);
    assert body.AppKitCollectionView? && body.appKit.scrollDirection == ScrollDirection.Vertical;
    assert body.appKit.estimatedItemSize == IntrinsicSize(0);

    var coordinator := AppKit.MakeCoordinator(body.appKit);
    var count := coordinator.NumberOfItemsInSection(0);
    assert count == 301;

    var cell := new AppKit.CollectionCell();
    var item := coordinator.ItemForRepresentedObjectAt(cell, 150);
    assert coordinator.signals == [];
    assert cell.hostingView.rootView == AnyView(150);

    item := coordinator.ItemForRepresentedObjectAt(cell, 300);
    assert coordinator.signals == [Signal(action, 300)];
    assert cell.subviews == [cell.hostingView] && cell.hostingView.rootView == AnyView(300);

    item := coordinator.ItemForRepresentedObjectAt(null, 300);
    assert item == AppKit.EmptyItem && coordinator.signals == [Signal(action, 300)];
  }

  /** A horizontal list on iOS whose items shrink from 301 to 5: the count
      query answers 5 and binding index 4, now the last, fires the callback. */
  method ShrinkingListOnIOS()
  {
    var action := Action(3);
    var list := WithOnLastItemAppear(ListView.Horizontal(seq(301, i => i), content := (i: int) => i), action);
    var body := BodyOf(list, IOS);
    assert body.UIKitCollectionView? && body.uiKit.scrollDirection == ScrollDirection.Horizontal;

    var coordinator := UIKit.MakeCoordinator(body.uiKit);
    var collectionView := UIKit.MakeUIViewController(body.uiKit);
    var shrunk := WithOnLastItemAppear(ListView.Horizontal([0, 1, 2, 3, 4], content := (i: int) => i), action);
    var newBody := BodyOf(shrunk, IOS);
    UIKit.UpdateUIViewController(newBody.uiKit, collectionView, coordinator);
    assert collectionView.reloads == [5];
    var count := coordinator.NumberOfItemsInSection(0);
    assert count == 5;

    var cell := new UIKit.CollectionCell();
    var bound := coordinator.CellForItemAt(cell, 4);
    assert coordinator.signals == [Signal(action, 4)];
    assert cell.HostedChildren() == [cell.hostingController.view];
  }

  /** Before the shrink, index 4 of the preview's 301 items is not the last
      one, so binding it on iOS fires nothing. */
  method MiddleBindOnIOS()
  {
    var action := Action(3);
    var list := WithOnLastItemAppear(ListView.Horizontal(seq(301, i => i), content := (i: int) => i), action);
    var body := BodyOf(list, IOS);
    var coordinator := UIKit.MakeCoordinator(body.uiKit);
    var cell := new UIKit.CollectionCell();
    var bound := coordinator.CellForItemAt(cell, 4);
    assert coordinator.signals == [];
    assert cell.hostingController.rootView == AnyView(4);
  }

  /** A list on macOS whose callback is replaced through the builder on a
      later render: the update pushes only the items, so binding the last
      index still fires the callback the coordinator was created with. */
  method ReplacedCallbackOnMacOS()
  {
    var first := Action(1);
    var second := Action(2);
    var list := WithOnLastItemAppear(ListView.Vertical([10, 20, 30], content := (i: int) => i), first);
    var body := BodyOf(list, MacOS);
    var coordinator := AppKit.MakeCoordinator(body.appKit);
    var collectionView := AppKit.MakeNSViewController(body.appKit, coordinator);

    var rerendered := WithOnLastItemAppear(list, second);
    var newBody := BodyOf(rerendered, MacOS);
    assert newBody.appKit.onLastItemAppear == Some(second);
    AppKit.UpdateNSViewController(newBody.appKit, coordinator);
    assert collectionView.reloads == [3];

    var cell := new AppKit.CollectionCell();
    var item := coordinator.ItemForRepresentedObjectAt(cell, 2);
    assert coordinator.signals == [Signal(first, 2)];
  }
}
