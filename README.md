# EthicalListView — a verified model of the recycling bridge

EthicalListView lets SwiftUI render long lists through the platform's
recycling collection views (`NSCollectionView` on macOS, `UICollectionView`
on iOS). This project models its core in Dafny:

- **Reusable cells** (`CollectionCell_AppKit`, `CollectionCell_UIKit`) as
  classes whose child list is a `seq<object>` and whose hosting view (or
  hosting controller) is a field. `Configure` rebinds a cell to new content.
- **Coordinators** (the data sources of both bridges) as classes holding the
  item snapshot, the content builder and the optional end-of-list callback.
  The callback is an opaque `Action`; each firing is appended to a ghost log
  `signals`, and every call served is appended to a ghost `history`.
- **The recycling protocol** (module `Recycling`) on values: `Step` is one
  call (snapshot update, bind, callback assignment) and `Replay` is a whole
  sequence of calls. Each coordinator's `Valid()` ties its fields and its two
  logs to `Replay`. The lemmas prove what holds across many calls.
- **The public facade** (`EthicalListView.Vertical` / `.Horizontal`) as one
  datatype with two constructors, its `body` as a pure function of the list
  and the platform, and the `onLastItemAppear(_:)` builder as a pure copy.

Platform parts are reduced to opaque handles. SwiftUI content is a value of a
type parameter `C` and `AnyView` is a wrapper datatype. Hosting views are
freshly allocated objects. The collection view is a handle that records its
scroll direction, its estimated item size and the item count it sees at each
`reloadData`. The intrinsic size measurement is opaque, so an estimated size
is recorded as `IntrinsicSize(v)`, "the measured size of `v`". `ZeroSize` is
the unmeasured default `.zero` and `AutomaticSize` the layout's self-sizing mode.

Behaviour the code fixes, which the model follows:

- An out-of-range bind index is not guarded. The item array subscript traps.
  The coordinator methods require the index to be in range, and `Replay`
  yields `None` for a trace containing such a bind.
- Only the AppKit bridge measures the first item to estimate the item size.
  The UIKit bridge uses the layout's automatic sizing.
- A cell rebind on UIKit detaches only the view it hosted before. On AppKit
  it detaches every subview of the item's view.
- The callback fires on every bind of the last index, including a rebind
  after scrolling back. It is not fired once per snapshot.
- Content and callback are captured once, when `makeCoordinator()` creates
  the coordinator. The update paths push only the items
  (Sources/EthicalListView/Collection_AppKit.swift:71-74 and 79,
  Sources/EthicalListView/Collection_UIKit.swift:81-84). A callback replaced
  through the builder on a later render never reaches a live coordinator.

## Model

| member | source | states |
|---|---|---|
| `Views.Without` | Sources/EthicalListView/Collection_AppKit.swift:16-18 | `removeFromSuperview` on a child list: the removed view is gone, every other child stays, nothing is added, and a list without duplicates stays without duplicates |
| `Views.WithoutFirst` | Sources/EthicalListView/Collection_AppKit.swift:16-17 | removing the first child of a duplicate-free child list leaves exactly the rest, which is what each step of the `forEach` removal does |
| `Views.HostingView.constructor` | Sources/EthicalListView/Collection_AppKit.swift:22 | a new hosting view has the given content as its root |
| `Views.HostingController.constructor` | Sources/EthicalListView/Collection_UIKit.swift:26 | a new hosting controller wraps the given content and owns a freshly created view with that root |
| `Views.CollectionViewHandle.constructor` | Sources/EthicalListView/Collection_AppKit.swift:50-55 | a new collection view has the layout's scroll direction and estimated item size, and has not reloaded yet |
| `Views.CollectionViewHandle.ReloadData` | Sources/EthicalListView/Collection_UIKit.swift:83 | a reload records the item count the data source answers at that moment |
| `Recycling.Step` | Sources/EthicalListView/Collection_UIKit.swift:96-112 | one call: an update replaces the snapshot and nothing else; a bind changes no state and fires at most once, exactly when the index is the last one and a callback is set, with that callback and index; a callback assignment changes only the callback |
| `Recycling.Replay` | Sources/EthicalListView/Collection_UIKit.swift:86-115 | a trace of calls served to the end fires at most one callback per call |
| `Recycling.ReplayBind` | Sources/EthicalListView/Collection_UIKit.swift:104-112 | serving a bind leaves the snapshot and callback as they were and adds one firing exactly when the index is the last one and a callback is set |
| `Recycling.ServedTraceBindsInRange` | Sources/EthicalListView/Collection_UIKit.swift:106 | a trace served to the end read every bind inside the snapshot in force at that moment |
| `Recycling.BindsInRangeServed` | Sources/EthicalListView/Collection_AppKit.swift:107 | a trace whose binds all read inside the snapshot in force is served to the end, so only an out-of-range bind traps |
| `Recycling.SignalsCountLastBinds` | Sources/EthicalListView/Collection_AppKit.swift:109-111 | over any trace, the number of firings equals the number of binds of the then-last index made while a callback was set |
| `Recycling.NoSignalsFromEmptySnapshots` | Sources/EthicalListView/Collection_AppKit.swift:107-111 | with only empty snapshots, no bind is valid and the callback never fires |
| `Recycling.SnapshotIsLatestUpdate` | Sources/EthicalListView/Collection_AppKit.swift:88-98 | after any trace, the snapshot is the one given by the latest update, whatever binds or callback changes followed it |
| `Recycling.SnapshotWithoutUpdates` | Sources/EthicalListView/Collection_AppKit.swift:82-98 | without updates, the snapshot stays the one the coordinator was created with |
| `Recycling.UpdateIdempotent` | Sources/EthicalListView/Collection_UIKit.swift:96-98 | giving the same snapshot twice in a row ends in the same state and firings as giving it once |
| `AppKitCollection.CollectionCell.constructor` | Sources/EthicalListView/Collection_AppKit.swift:12-13 | a new item has no subviews and no hosting view |
| `AppKitCollection.CollectionCell.Configure` | Sources/EthicalListView/Collection_AppKit.swift:15-32 | afterwards the item view has exactly one subview, a fresh hosting view of the new content; every earlier subview is removed; `hostingView` is the new view |
| `AppKitCollection.Coordinator.constructor` | Sources/EthicalListView/Collection_AppKit.swift:82-86 | stores items, content and callback unchanged, with no calls served and nothing fired |
| `AppKitCollection.Coordinator.UpdateItems` | Sources/EthicalListView/Collection_AppKit.swift:88-90 | replaces the snapshot wholesale; the callback log and collection view are unchanged |
| `AppKitCollection.Coordinator.NumberOfSections` | Sources/EthicalListView/Collection_AppKit.swift:92-94 | there is always exactly one section |
| `AppKitCollection.Coordinator.NumberOfItemsInSection` | Sources/EthicalListView/Collection_AppKit.swift:96-98 | the count is the current snapshot's length |
| `AppKitCollection.Coordinator.NotifyIfLast` | Sources/EthicalListView/Collection_AppKit.swift:109-111 | after a bind the callback fires once exactly when the index is the snapshot's last and a callback is set; the snapshot is unchanged |
| `AppKitCollection.Coordinator.ItemForRepresentedObjectAt` | Sources/EthicalListView/Collection_AppKit.swift:100-114 | if the dequeued item is not a cell of the bridge, an empty item comes back and nothing is bound or fired; otherwise the index must be in range, the cell holds only `AnyView(content(items[i]))`, and the callback fires once exactly when `i` is the last index and a callback is set |
| `AppKitCollection.Coordinator.SignalsMatchFiringCalls` | Sources/EthicalListView/Collection_AppKit.swift:109-111 | over the coordinator's whole life, firings equal binds of the then-last index made while a callback was set |
| `AppKitCollection.Coordinator.CountIsLatestSnapshot` | Sources/EthicalListView/Collection_AppKit.swift:88-98 | the snapshot served, and so the count answered, is the latest snapshot given |
| `AppKitCollection.NewCollectionView` | Sources/EthicalListView/Collection_AppKit.swift:116-131 | stores its arguments, the callback defaulting to none; the estimated item size is the unmeasured default exactly when there are no items, otherwise the measured size of the first item's content |
| `AppKitCollection.MakeCoordinator` | Sources/EthicalListView/Collection_AppKit.swift:42-44 | a fresh coordinator with the representable's items, content and callback |
| `AppKitCollection.MakeNSViewController` | Sources/EthicalListView/Collection_AppKit.swift:49-69 | a fresh collection view whose layout takes the representable's scroll direction and estimated size unchanged, referenced by the coordinator |
| `AppKitCollection.UpdateNSViewController` | Sources/EthicalListView/Collection_AppKit.swift:71-74 | the coordinator takes the new items before the collection view reloads, so the reload sees the new count; with no collection view nothing reloads; content and callback are constants of the coordinator and stay as created |
| `UIKitCollection.CollectionCell.constructor` | Sources/EthicalListView/Collection_UIKit.swift:15-17 | a new cell has an empty content view and no hosting controller |
| `UIKitCollection.CollectionCell.Configure` | Sources/EthicalListView/Collection_UIKit.swift:23-38 | the previous hosted view is detached and no longer a child, other children stay, the new controller's fresh view is appended and added to the views the cell has hosted, and the content view holds exactly one view the cell ever hosted |
| `UIKitCollection.Coordinator.constructor` | Sources/EthicalListView/Collection_UIKit.swift:91-94 | stores items and content, with no callback |
| `UIKitCollection.Coordinator.SetOnLastItemAppear` | Sources/EthicalListView/Collection_UIKit.swift:61 | assigning the callback property changes only the callback |
| `UIKitCollection.Coordinator.UpdateItems` | Sources/EthicalListView/Collection_UIKit.swift:96-98 | replaces the snapshot wholesale; content, callback and the callback log are unchanged |
| `UIKitCollection.Coordinator.NumberOfItemsInSection` | Sources/EthicalListView/Collection_UIKit.swift:100-102 | the count is the current snapshot's length |
| `UIKitCollection.Coordinator.NotifyIfLast` | Sources/EthicalListView/Collection_UIKit.swift:110-112 | after a bind the callback fires once exactly when the index is the snapshot's last and a callback is set; snapshot, content and callback are unchanged |
| `UIKitCollection.Coordinator.CellForItemAt` | Sources/EthicalListView/Collection_UIKit.swift:104-115 | with the index in range, the cell holds `AnyView(content(items[i]))` as its only hosted view (the new view joins the views the cell has hosted), the previously hosted view is detached while the other children stay in order, and the callback fires once exactly when `i` is the last index and a callback is set |
| `UIKitCollection.Coordinator.SignalsMatchFiringCalls` | Sources/EthicalListView/Collection_UIKit.swift:110-112 | over the coordinator's whole life, firings equal binds of the then-last index made while a callback was set |
| `UIKitCollection.Coordinator.CountIsLatestSnapshot` | Sources/EthicalListView/Collection_UIKit.swift:96-102 | the snapshot served, and so the count answered, is the latest snapshot given |
| `UIKitCollection.MakeCoordinator` | Sources/EthicalListView/Collection_UIKit.swift:59-63 | a fresh coordinator whose items, content and callback equal the representable's |
| `UIKitCollection.MakeUIViewController` | Sources/EthicalListView/Collection_UIKit.swift:65-79 | a fresh collection view with the representable's scroll direction and automatic item sizing |
| `UIKitCollection.UpdateUIViewController` | Sources/EthicalListView/Collection_UIKit.swift:81-84 | the coordinator takes the new items before the collection view reloads, so the reload sees the new count; content and callback stay as `makeCoordinator()` set them |
| `EthicalListView.BodyOf` | Sources/EthicalListView/EthicalListView.swift:22-65 | the body is the placeholder "Unsupported platform" exactly on a platform with no bridge |
| `EthicalListView.InitKeepsArguments` | Sources/EthicalListView/EthicalListView.swift:12-20 | for both list types, `init` keeps items and content, keeps a callback that is passed, and has no callback when none is passed |
| `EthicalListView.BodyKeepsOrientation` | Sources/EthicalListView/EthicalListView.swift:24-31 | on iOS and macOS, `Vertical` scrolls vertically and `Horizontal` horizontally, and the bridge gets the list's items and callback |
| `EthicalListView.UnsupportedPlatformPlaceholder` | Sources/EthicalListView/EthicalListView.swift:32-34 | on any other platform the body is the text placeholder and no collection view |
| `EthicalListView.WithOnLastItemAppear` | Sources/EthicalListView/EthicalListView.swift:68-81 | the builder returns the same list type with the same items and content, whose callback is the new action |
| `EthicalListView.BuilderChangesOnlyCallback` | Sources/EthicalListView/EthicalListView.swift:69-73 | the copy's body passes the new action while the receiver's body still passes its own callback; both scroll the same way over the same items |
| `EthicalListView.BuilderLastActionWins` | Sources/EthicalListView/EthicalListView.swift:69-73 | applying the builder twice keeps only the last action |

The module `Scenarios` holds four client scenarios that use only these
contracts. A vertical list of the items 0 through 300 on macOS fires nothing
when index 150 is bound and fires once when index 300 is bound. On iOS,
binding index 4 of the 301 items fires nothing. A horizontal list on iOS
shrinks from 301 items to 5, after which the count is 5 and binding index 4
fires the callback. A macOS list whose callback is replaced through the
builder on a later render still fires the callback it was created with.

## Left out

- Auto Layout constraints, `layoutIfNeeded`, the scroll view, scroller flags and the flow layout beyond its scroll direction and estimated size: geometry owned by the platform.
- `measureSize` and `intrinsicContentSize`: floating-point platform measurements. The model records which content is measured, not the size.
- Item pooling (`makeItem`, `dequeueReusableCell`), cell registration and delegate/data source wiring: framework calls. A dequeue is the cell passed in. `reloadData` is a log of the count the data source answers.
- The weak reference from the AppKit coordinator to its collection view may become nil when the platform releases the view. The model sets it only in `MakeNSViewController` and never clears it.
- The UIKit force cast of the dequeued cell: the parameter's class type stands for a successful cast. A failed cast crashes the program and is not modelled.
- `init?(coder:)`, which only calls `fatalError`, and the preview provider. The preview's data (items 0 to 300) is used in `Scenarios`.
- What the callback does, and when the bound cell actually becomes visible on screen: the callback is an opaque handle, and the code only promises that it fires when the last index is bound.
- Threads: everything runs on the main thread, so calls are modelled in sequence.
