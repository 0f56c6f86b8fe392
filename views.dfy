/** Platform handles shared by the AppKit and UIKit bridges.

    The SwiftUI view layer, the hosting views and the collection views are
    opaque: a rendered content value is a value of a type parameter, a
    hosting view is an object whose only observable part is the content it
    wraps, and a view's list of children is a sequence of objects. */
module Views {

  datatype Option<T> = None | Some(value: T)

  /** An opaque handle to a `() -> Void` closure supplied by the host. */
  datatype Action = Action(id: nat)

  /** One firing of the end-of-list callback: which closure ran, for which bound index. */
  datatype Signal = Signal(action: Action, index: int)

  /** SwiftUI's type-erasing wrapper around a rendered view. */
  datatype AnyView<C> = AnyView(root: C)

  /** The scroll axis of a collection view's flow layout. */
  datatype ScrollDirection = Vertical | Horizontal

  /** The estimated item size handed to a flow layout. `ZeroSize` is the
      unmeasured default `.zero`, `AutomaticSize` the layout's self-sizing
      mode, and `IntrinsicSize(v)` the intrinsic content size the platform
      measures for `v`; the measurement itself is opaque, so the model
      records what was measured. */
  datatype EstimatedSize<C> = ZeroSize | IntrinsicSize(measured: C) | AutomaticSize

  /** A hosting view (`NSHostingView`, or the view of a `UIHostingController`):
      a fresh platform view whose root is one rendered content value. */
  class HostingView<C> {
    const rootView: C

    constructor (root: C)
      ensures rootView == root
    {
      rootView := root;
    }
  }

  /** `UIHostingController`: owns a freshly created hosting view. */
  class HostingController<C> {
    const rootView: C
    const view: HostingView<C>

    constructor (root: C)
      ensures rootView == root && view.rootView == root
      ensures fresh(view)
    {
      rootView := root;
      view := new HostingView(root);
    }
  }

  /** The platform collection view, reduced to what the bridges configure on
      it (scroll direction and estimated item size) and to the reloads they
      request. `reloads` records, per `reloadData`, the item count that the
      data source answers when the collection view re-queries it. */
  class CollectionViewHandle<C> {
    const scrollDirection: ScrollDirection
    const estimatedItemSize: EstimatedSize<C>
    ghost var reloads: seq<int>

    constructor (direction: ScrollDirection, estimated: EstimatedSize<C>)
      ensures scrollDirection == direction && estimatedItemSize == estimated
      ensures reloads == []
    {
      scrollDirection := direction;
      estimatedItemSize := estimated;
      reloads := [];
    }

    method ReloadData(ghost answeredCount: int)
      modifies this
      ensures reloads == old(reloads) + [answeredCount]
    {
      reloads := reloads + [answeredCount];
    }
  }

  /** No view occurs twice in a child list (a view has at most one superview). */
  ghost predicate Distinct<T>(s: seq<T>)
  {
    forall j, k :: 0 <= j < k < |s| ==> s[j] != s[k]
  }

  /** The child list after `v.removeFromSuperview()`: every occurrence of `v`
      is gone and the other children keep their order. */
  function Without<T(==)>(s: seq<T>, v: T): (r: seq<T>)
    ensures forall k :: 0 <= k < |r| ==> r[k] in s && r[k] != v
    ensures forall k :: 0 <= k < |s| && s[k] != v ==> s[k] in r
    ensures v !in s ==> r == s
    ensures |r| <= |s|
    ensures Distinct(s) ==> Distinct(r)
  {
    if s == [] then []
    else if s[0] == v then Without(s[1..], v)
    else [s[0]] + Without(s[1..], v)
  }

  /** Removing the first child of a list without duplicates leaves exactly the rest. */
  lemma WithoutFirst<T>(s: seq<T>)
    requires Distinct(s) && |s| > 0
    ensures Without(s, s[0]) == s[1..]
  {
    assert s[0] !in s[1..];
  }

  /** The children of `s` that belong to `hosted`, in order. */
  function Keep<T(==)>(s: seq<T>, hosted: set<T>): (r: seq<T>)
    ensures forall k :: 0 <= k < |r| ==> r[k] in s && r[k] in hosted
    ensures forall k :: 0 <= k < |s| && s[k] in hosted ==> s[k] in r
    ensures |r| <= |s|
  {
    if s == [] then []
    else if s[0] in hosted then [s[0]] + Keep(s[1..], hosted)
    else Keep(s[1..], hosted)
  }

  lemma {:induction false} KeepAppend<T>(s: seq<T>, t: seq<T>, hosted: set<T>)
    ensures Keep(s + t, hosted) == Keep(s, hosted) + Keep(t, hosted)
  {
    if s == [] {
      assert s + t == t;
    } else {
      assert (s + t)[0] == s[0] && (s + t)[1..] == s[1..] + t;
      KeepAppend(s[1..], t, hosted);
      if s[0] in hosted {
        calc {
          Keep(s + t, hosted);
          [s[0]] + Keep(s[1..] + t, hosted);
          [s[0]] + (Keep(s[1..], hosted) + Keep(t, hosted));
          ([s[0]] + Keep(s[1..], hosted)) + Keep(t, hosted);
        }
      }
    }
  }

  lemma {:induction false} KeepWithout<T>(s: seq<T>, v: T, hosted: set<T>)
    ensures Keep(Without(s, v), hosted) == Without(Keep(s, hosted), v)
  {
    if s != [] {
      KeepWithout(s[1..], v, hosted);
      if s[0] != v {
        assert ([s[0]] + Without(s[1..], v))[1..] == Without(s[1..], v);
      }
      if s[0] in hosted {
        assert ([s[0]] + Keep(s[1..], hosted))[1..] == Keep(s[1..], hosted);
      }
    }
  }

  /** Adding to `hosted` a view that is not a child does not change the hosted children. */
  lemma {:induction false} KeepIgnoresAbsent<T>(s: seq<T>, hosted: set<T>, v: T)
    requires v !in s
    ensures Keep(s, hosted + {v}) == Keep(s, hosted)
  {
    if s != [] {
      KeepIgnoresAbsent(s[1..], hosted, v);
    }
  }
}
