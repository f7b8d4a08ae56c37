/** The full-width menu (`src/components/reactbits/FlowingMenu.tsx`): which edge the pointer
    entered by, how an item's accent becomes a style, which item is active, and what a click
    reports. The hover animations are left out. */
module FlowingMenu {
  import opened Wrappers
  import opened Text

  /** An item as the menu receives it; `href` may be missing (an action rather than a link). */
  datatype Item = Item(href: Option<string>, name: string, accent: Option<string>)

  datatype Edge = Top | Bottom

  /** The edge whose midpoint is nearer the pointer at (`x`, `y`) in a box `w` by `h`; a tie
      goes to the bottom. */
  function FindClosestEdge(x: real, y: real, w: real, h: real): Edge {
    var dx := x - w / 2.0;
    var topDist := dx * dx + y * y;
    var bottomDist := dx * dx + (y - h) * (y - h);
    if topDist < bottomDist then Top else Bottom
  }

  /** In a box of positive height the top wins exactly when the pointer is in the upper half;
      on the middle line it is the bottom. In a box of no height it is always the bottom. */
  lemma ClosestEdgeIsUpperHalf(x: real, y: real, w: real, h: real)
    ensures h > 0.0 ==> (FindClosestEdge(x, y, w, h) == Top <==> 2.0 * y < h)
    ensures h == 0.0 ==> FindClosestEdge(x, y, w, h) == Bottom
  {
    var dx := x - w / 2.0;
    assert (dx * dx + y * y < dx * dx + (y - h) * (y - h)) <==> 2.0 * y * h < h * h;
    if h > 0.0 {
      assert 2.0 * y * h < h * h <==> 2.0 * y < h by {
        if 2.0 * y < h {
          assert 2.0 * y * h < h * h;
        } else {
          assert 2.0 * y * h >= h * h;
        }
      }
    }
  }

  const DefaultAccent := "linear-gradient(135deg, hsl(var(--primary)) 0%, hsl(var(--secondary)) 100%)"

  /** The inline style of an item's accent swatch. */
  datatype Style = Background(value: string) | BackgroundImage(image: string)

  /** No accent (or an empty one) is the default gradient; an image reference becomes a
      background image; anything else is used verbatim as the background. */
  function AccentStyle(accent: Option<string>): (s: Style)
    ensures accent.None? || accent == Some("") ==> s == Background(DefaultAccent)
    ensures accent.Some? && accent.value != "" ==>
              (s.BackgroundImage? <==> StartsWith(accent.value, "url("))
    ensures accent.Some? && accent.value != "" ==>
              (s == BackgroundImage(accent.value) || s == Background(accent.value))
  {
    match accent
    case None => Background(DefaultAccent)
    case Some(a) =>
      if a == "" then Background(DefaultAccent)
      else if StartsWith(a, "url(") then BackgroundImage(a)
      else Background(a)
  }

  /** An item is active when its link is the active one (`===`, so two missing links are
      equal too). */
  predicate IsActive(activeHref: Option<string>, item: Item) {
    activeHref == item.href
  }

  /** The flags the menu renders, one per item. */
  function ActiveFlags(items: seq<Item>, activeHref: Option<string>): (flags: seq<bool>)
    ensures |flags| == |items|
    ensures forall i | 0 <= i < |items| :: flags[i] <==> items[i].href == activeHref
  {
    seq(|items|, i requires 0 <= i < |items| => IsActive(activeHref, items[i]))
  }

  /** With distinct links, at most one item is active. */
  lemma AtMostOneActive(items: seq<Item>, activeHref: Option<string>, i: nat, j: nat)
    requires forall a, b | 0 <= a < b < |items| :: items[a].href != items[b].href
    requires i < |items| && j < |items|
    requires ActiveFlags(items, activeHref)[i] && ActiveFlags(items, activeHref)[j]
    ensures i == j
  {
    assert items[i].href == activeHref == items[j].href;
  }

  /** What a click in the menu does, in order: run the auth action, tell the menu's listener
      of an item, or follow a link (a missing one resolves to the current location). */
  datatype MenuEvent = RunAuthAction | Reported(item: Item) | FollowLink(to: Option<string>)

  /** A click on an item first reports that item to the menu's listener, when there is one
      (its link, label and accent; nothing else it may carry); then the item's link, which
      nothing prevents, is followed. */
  function ItemClick(item: Item, hasListener: bool): (events: seq<MenuEvent>)
    ensures |events| >= 1 && events[|events| - 1] == FollowLink(item.href)
    ensures Reported(item) in events <==> hasListener
    ensures hasListener ==> events == [Reported(item), FollowLink(item.href)]
    ensures !hasListener ==> events == [FollowLink(item.href)]
  {
    (if hasListener then [Reported(item)] else []) + [FollowLink(item.href)]
  }

  /** `handleAuthClick`: with an auth action, run it, then report an item linking to "#" with
      the action's label as its name; without one, do nothing. */
  function AuthClick(authLabel: Option<string>, hasListener: bool): (events: seq<MenuEvent>)
    ensures authLabel.None? ==> events == []
    ensures forall e | e in events :: !e.FollowLink?
    ensures authLabel.Some? ==> |events| >= 1 && events[0] == RunAuthAction
    ensures authLabel.Some? && hasListener ==>
              events == [RunAuthAction, Reported(Item(Some("#"), authLabel.value, None))]
    ensures authLabel.Some? && !hasListener ==> events == [RunAuthAction]
  {
    match authLabel
    case None => []
    case Some(name) =>
      [RunAuthAction] + (if hasListener then [Reported(Item(Some("#"), name, None))] else [])
  }
}
