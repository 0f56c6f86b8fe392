/** The public facade: `EthicalListView.Vertical` and `EthicalListView.Horizontal`.

    Both are value types holding the items, the content builder and an
    optional end-of-list callback. Their `body` picks the platform bridge
    with a fixed scroll direction; the `onLastItemAppear(_:)` builder returns
    a modified copy. */
module EthicalListView {
  import opened Views
  import AppKit = AppKitCollection
  import UIKit = UIKitCollection

  /** The two public list types; their `init` is the constructor, whose
      callback argument defaults to none. */
  datatype ListView<!Item, C> =
    | Vertical(items: seq<Item>, onLastItemAppear: Option<Action> := None, content: Item -> C)
    | Horizontal(items: seq<Item>, onLastItemAppear: Option<Action> := None, content: Item -> C)

  /** The platform the package is compiled for. */
  datatype Platform = IOS | MacOS | OtherPlatform

  /** What `body` evaluates to: one of the two bridges, or a text placeholder. */
  datatype Body<!Item, C> =
    | UIKitCollectionView(uiKit: UIKit.CollectionView<Item, C>)
    | AppKitCollectionView(appKit: AppKit.CollectionView<Item, C>)
    | Text(caption: string)

  /** `body`: the bridge of the platform, configured with the list's own
      items, content and callback and with the list type's scroll direction. */
  function BodyOf<Item, C>(list: ListView<Item, C>, platform: Platform): (b: Body<Item, C>)
    ensures b.Text? <==> platform == OtherPlatform
    ensures b.Text? ==> b.caption == "Unsupported platform"
  {
    var direction := if list.Vertical? then ScrollDirection.Vertical else ScrollDirection.Horizontal;
    match platform
    case IOS =>
      UIKitCollectionView(UIKit.CollectionView(list.items, list.content, direction, list.onLastItemAppear))
    case MacOS =>
      AppKitCollectionView(AppKit.NewCollectionView(list.items, list.onLastItemAppear, list.content, direction))
    case OtherPlatform =>
      Text("Unsupported platform")
  }

  /** The scroll direction a body's collection view is laid out with, if it has one. */
  function BodyScrollDirection<Item, C>(b: Body<Item, C>): Option<ScrollDirection>
  {
    match b
    case UIKitCollectionView(v) => Some(v.scrollDirection)
    case AppKitCollectionView(v) => Some(v.scrollDirection)
    case Text(_) => None
  }

  /** The end-of-list callback a body hands to its bridge, if it has one. */
  function BodyCallback<Item, C>(b: Body<Item, C>): Option<Option<Action>>
  {
    match b
    case UIKitCollectionView(v) => Some(v.onLastItemAppear)
    case AppKitCollectionView(v) => Some(v.onLastItemAppear)
    case Text(_) => None
  }

  /** The items a body hands to its bridge (none for the placeholder). */
  function BodyItems<Item, C>(b: Body<Item, C>): seq<Item>
  {
    match b
    case UIKitCollectionView(v) => v.items
    case AppKitCollectionView(v) => v.items
    case Text(_) => []
  }

  /** `init` keeps its arguments, and without a callback argument there is no callback. */
  lemma InitKeepsArguments<Item, C>(items: seq<Item>, content: Item -> C, action: Action)
    ensures ListView.Vertical(items, content := content).items == items
    ensures ListView.Vertical(items, content := content).content == content
    ensures ListView.Vertical(items, content := content).onLastItemAppear == None
    ensures ListView.Vertical(items, Some(action), content).onLastItemAppear == Some(action)
    ensures ListView.Horizontal(items, content := content).items == items
    ensures ListView.Horizontal(items, content := content).content == content
    ensures ListView.Horizontal(items, content := content).onLastItemAppear == None
    ensures ListView.Horizontal(items, Some(action), content).onLastItemAppear == Some(action)
  {
  }

  /** `Vertical.body` scrolls vertically and `Horizontal.body` horizontally, on
      both platforms with a bridge, and the bridge gets the list's items and callback. */
  lemma BodyKeepsOrientation<Item, C>(list: ListView<Item, C>, platform: Platform)
    requires platform != OtherPlatform
    ensures BodyScrollDirection(BodyOf(list, platform))
            == Some(if list.Vertical? then ScrollDirection.Vertical else ScrollDirection.Horizontal)
    ensures BodyItems(BodyOf(list, platform)) == list.items
    ensures BodyCallback(BodyOf(list, platform)) == Some(list.onLastItemAppear)
  {
  }

  /** On a platform without a bridge, `body` is the placeholder and no collection view. */
  lemma UnsupportedPlatformPlaceholder<Item, C>(list: ListView<Item, C>)
    ensures BodyOf(list, OtherPlatform) == Text("Unsupported platform")
    ensures BodyScrollDirection(BodyOf(list, OtherPlatform)) == None
  {
  }

  /** `onLastItemAppear(_:)`: a copy of the same list type with the same items
      and content, whose callback is `action`. */
  function WithOnLastItemAppear<Item, C>(list: ListView<Item, C>, action: Action): (copy: ListView<Item, C>)
    ensures copy.Vertical? == list.Vertical?
    ensures copy.items == list.items && copy.content == list.content
    ensures copy.onLastItemAppear == Some(action)
  {
    list.(onLastItemAppear := Some(action))
  }

  /** The builder changes only the callback the body hands to the bridge:
      the copy's body passes the new action, the receiver's body still passes
      its own callback, and both scroll the same way over the same items. */
  lemma BuilderChangesOnlyCallback<Item, C>(list: ListView<Item, C>, action: Action, platform: Platform)
    requires platform != OtherPlatform
    ensures BodyCallback(BodyOf(WithOnLastItemAppear(list, action), platform)) == Some(Some(action))
    ensures BodyCallback(BodyOf(list, platform)) == Some(list.onLastItemAppear)
    ensures BodyScrollDirection(BodyOf(WithOnLastItemAppear(list, action), platform))
            == BodyScrollDirection(BodyOf(list, platform))
    ensures BodyItems(BodyOf(WithOnLastItemAppear(list, action), platform)) == BodyItems(BodyOf(list, platform))
  {
    BodyKeepsOrientation(list, platform);
    BodyKeepsOrientation(WithOnLastItemAppear(list, action), platform);
  }

  /** Applying the builder twice keeps only the last action. */
  lemma BuilderLastActionWins<Item, C>(list: ListView<Item, C>, first: Action, second: Action)
    ensures WithOnLastItemAppear(WithOnLastItemAppear(list, first), second) == WithOnLastItemAppear(list, second)
  {
  }
}
