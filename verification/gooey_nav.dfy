/** The site header's navigation (`src/components/reactbits/GooeyNav.tsx`): the mobile menu's
    open state, the focus and scroll bookkeeping done when it opens and closes, its keyboard
    handling, and the items it lists. Elements of the page are identified by number. */
module GooeyNav {
  import opened Wrappers
  import opened AdminForms
  import FlowingMenu

  type ElementId = int

  /** An element matched by the focusable selectors, and whether it is a focus guard. */
  datatype Candidate = Candidate(id: ElementId, guard: bool)

  /** `getFocusableElements`: the matched elements that are not focus guards, in document
      order. */
  function Focusable(candidates: seq<Candidate>): (r: seq<ElementId>)
    ensures |r| <= |candidates|
    ensures forall x | x in r :: exists c | c in candidates :: !c.guard && c.id == x
    ensures forall c | c in candidates && !c.guard :: c.id in r
  {
    if candidates == [] then []
    else
      var rest := Focusable(candidates[1..]);
      assert forall c | c in candidates[1..] :: c in candidates;
      if candidates[0].guard then rest else [candidates[0].id] + rest
  }

  /** Getting the focusable elements keeps document order: those of a longer list are those
      of its first part followed by those of the rest. */
  lemma {:induction false} FocusableAppend(a: seq<Candidate>, b: seq<Candidate>)
    ensures Focusable(a + b) == Focusable(a) + Focusable(b)
    decreases |a|
  {
    if a == [] {
      assert a + b == b;
    } else {
      var ab := a + b;
      assert ab[0] == a[0] && ab[1..] == a[1..] + b;
      FocusableAppend(a[1..], b);
      if a[0].guard {
        calc {
          Focusable(ab);
          Focusable(a[1..] + b);
          Focusable(a[1..]) + Focusable(b);
        }
      } else {
        calc {
          Focusable(ab);
          [a[0].id] + Focusable(a[1..] + b);
          [a[0].id] + (Focusable(a[1..]) + Focusable(b));
          ([a[0].id] + Focusable(a[1..])) + Focusable(b);
        }
      }
    }
  }

  /** One candidate is focusable by itself exactly when it is not a guard. */
  lemma FocusableOne(c: Candidate)
    ensures Focusable([c]) == if c.guard then [] else [c.id]
  {
    assert [c][1..] == [];
  }

  /** A focus guard is never focusable, unless another, unguarded element has its id. */
  lemma GuardNeverFocusable(candidates: seq<Candidate>, g: Candidate)
    requires g in candidates && g.guard
    requires forall c | c in candidates && c.id == g.id :: c.guard
    ensures g.id !in Focusable(candidates)
  {
  }

  /** The first index of `x`, as `findIndex` finds it. */
  function IndexOf(xs: seq<ElementId>, x: ElementId): (i: int)
    ensures x in xs ==> 0 <= i < |xs| && xs[i] == x && x !in xs[..i]
    ensures x !in xs ==> i == -1
  {
    if xs == [] then -1
    else if xs[0] == x then 0
    else
      var i := IndexOf(xs[1..], x);
      assert x in xs[1..] ==> xs[1..][..i] == xs[1..i + 1];
      if i == -1 then -1 else i + 1
  }

  datatype Direction = Down | Up

  /** Where an arrow key moves focus among the menu items: to the next item (down) or the
      previous one (up), wrapping around; nowhere when there are no items or the focus is not
      on one. */
  function ArrowTarget(items: seq<ElementId>, current: ElementId, d: Direction)
    : (r: Option<ElementId>)
    ensures r.None? <==> current !in items
    ensures r.Some? ==> r.value in items
    ensures r.Some? && d == Down ==>
              r.value == items[(IndexOf(items, current) + 1) % |items|]
    ensures r.Some? && d == Up ==>
              r.value == items[(IndexOf(items, current) - 1 + |items|) % |items|]
  {
    if items == [] then None
    else
      var index := IndexOf(items, current);
      if index == -1 then None
      else if d == Down then Some(items[(index + 1) % |items|])
      else Some(items[(index - 1 + |items|) % |items|])
  }

  predicate Distinct(xs: seq<ElementId>) {
    forall i, j | 0 <= i < j < |xs| :: xs[i] != xs[j]
  }

  lemma IndexOfDistinct(xs: seq<ElementId>, k: nat)
    requires Distinct(xs) && k < |xs|
    ensures IndexOf(xs, xs[k]) == k
  {
  }

  lemma ModSmall(a: int, n: int)
    requires 0 <= a < n
    ensures a % n == a
  {
  }

  lemma ModWrap(a: int, n: int)
    requires n <= a < 2 * n
    ensures a % n == a - n
  {
  }

  /** The index ArrowDown moves to from `i`, and the one ArrowUp moves to. */
  lemma NextPrevious(i: int, n: int)
    requires 0 <= i < n
    ensures (i + 1) % n == if i + 1 < n then i + 1 else 0
    ensures (i - 1 + n) % n == if i > 0 then i - 1 else n - 1
  {
    if i + 1 < n { ModSmall(i + 1, n); } else { ModWrap(i + 1, n); }
    if i > 0 { ModWrap(i - 1 + n, n); } else { ModSmall(n - 1, n); }
  }

  /** With distinct items, ArrowUp undoes ArrowDown and ArrowDown undoes ArrowUp. */
  lemma ArrowsUndoEachOther(items: seq<ElementId>, current: ElementId)
    requires Distinct(items) && current in items
    ensures ArrowTarget(items, ArrowTarget(items, current, Down).value, Up) == Some(current)
    ensures ArrowTarget(items, ArrowTarget(items, current, Up).value, Down) == Some(current)
  {
    var n := |items|;
    var i := IndexOf(items, current);
    NextPrevious(i, n);
    var down := if i + 1 < n then i + 1 else 0;
    var up := if i > 0 then i - 1 else n - 1;
    assert ArrowTarget(items, current, Down) == Some(items[down]);
    assert ArrowTarget(items, current, Up) == Some(items[up]);
    IndexOfDistinct(items, down);
    IndexOfDistinct(items, up);
    NextPrevious(down, n);
    NextPrevious(up, n);
  }

  /** Where the Tab handler sends focus: Shift+Tab on the first focusable wraps to the last,
      Tab on the last wraps to the first; anywhere else the handler leaves focus alone. */
  function TabTarget(focusable: seq<ElementId>, active: ElementId, shift: bool)
    : (r: Option<ElementId>)
    ensures focusable == [] ==> r.None?
    ensures r.Some? <==>
              focusable != [] && active == (if shift then focusable[0] else focusable[|focusable| - 1])
    ensures r.Some? ==> r.value == (if shift then focusable[|focusable| - 1] else focusable[0])
  {
    if focusable == [] then None
    else
      var first, last := focusable[0], focusable[|focusable| - 1];
      if shift then (if active == first then Some(last) else None)
      else if active == last then Some(first) else None
  }

  /** Tab from the last focusable, then Shift+Tab, lands on the last one again. */
  lemma TabWrapUndone(focusable: seq<ElementId>)
    requires focusable != []
    ensures var there := TabTarget(focusable, focusable[|focusable| - 1], false);
      there == Some(focusable[0]) && TabTarget(focusable, there.value, true) == Some(focusable[|focusable| - 1])
  {
  }

  datatype Key = Escape | Tab | ArrowDown | ArrowUp | OtherKey

  const HiddenOverflow := "hidden"

  /** The header's state: whether the mobile menu is open, the current path, the focused
      element (`document.activeElement`), the element to give focus back to, the body's
      `overflow` style and the value to put back. The menu's focusable candidates and its
      items are fixed for the header's lifetime. */
  class Navigation {
    var open: bool
    var pathname: string
    var focus: ElementId
    var savedFocus: Option<ElementId>
    var overflow: string
    var originalOverflow: string
    const candidates: seq<Candidate>
    const items: seq<ElementId>

    /** While open, the page cannot scroll; while closed, no focus is waiting to be given
        back. */
    predicate Valid()
      reads this
    {
      (open ==> overflow == HiddenOverflow) && (!open ==> savedFocus.None?)
    }

    constructor(candidates: seq<Candidate>, items: seq<ElementId>, pathname: string,
                focus: ElementId, overflow: string)
      ensures Valid() && !open
      ensures this.candidates == candidates && this.items == items
      ensures this.pathname == pathname && this.focus == focus && this.overflow == overflow
    {
      this.candidates := candidates;
      this.items := items;
      this.pathname := pathname;
      this.focus := focus;
      this.overflow := overflow;
      this.originalOverflow := overflow;
      this.open := false;
      this.savedFocus := None;
    }

    /** `setOpen(v)` and the effects that depend on `open`, which run only when it changes.
        Opening remembers the focused element and the overflow, hides the overflow and
        focuses the first focusable; closing gives focus back and restores the overflow. */
    method SetOpen(v: bool)
      requires Valid()
      modifies this
      ensures Valid() && open == v && pathname == old(pathname)
      ensures v == old(open) ==>
                focus == old(focus) && savedFocus == old(savedFocus)
                && overflow == old(overflow) && originalOverflow == old(originalOverflow)
      ensures v && !old(open) ==>
                && savedFocus == Some(old(focus))
                && originalOverflow == old(overflow)
                && focus == (if Focusable(candidates) != [] then Focusable(candidates)[0]
                             else old(focus))
      ensures !v && old(open) ==>
                && focus == old(savedFocus).GetOr(old(focus))
                && overflow == old(originalOverflow)
                && originalOverflow == old(originalOverflow)
    {
      if v == open {
        return;
      }
      open := v;
      if v {
        savedFocus := Some(focus);
        var focusable := Focusable(candidates);
        if focusable != [] {
          focus := focusable[0];
        }
        originalOverflow := overflow;
        overflow := HiddenOverflow;
      } else {
        if savedFocus.Some? {
          focus := savedFocus.value;
          savedFocus := None;
        }
        overflow := originalOverflow;
      }
    }

    /** The menu button: flips the menu. */
    method Toggle()
      requires Valid()
      modifies this
      ensures Valid() && open == !old(open) && pathname == old(pathname)
      ensures !old(open) ==>
                && savedFocus == Some(old(focus))
                && originalOverflow == old(overflow)
                && focus == (if Focusable(candidates) != [] then Focusable(candidates)[0]
                             else old(focus))
      ensures old(open) ==>
                && focus == old(savedFocus).GetOr(old(focus))
                && overflow == old(originalOverflow)
    {
      SetOpen(!open);
    }

    /** A navigation: a new path closes the menu. */
    method Navigate(path: string)
      requires Valid()
      modifies this
      ensures Valid() && pathname == path
      ensures path != old(pathname) ==> !open
      ensures originalOverflow == old(originalOverflow)
      ensures path == old(pathname) ==>
                open == old(open) && focus == old(focus)
                && overflow == old(overflow) && savedFocus == old(savedFocus)
      ensures path != old(pathname) && old(open) ==>
                focus == old(savedFocus).GetOr(old(focus)) && overflow == old(originalOverflow)
      ensures path != old(pathname) && !old(open) ==>
                focus == old(focus) && overflow == old(overflow)
    {
      if path != pathname {
        pathname := path;
        SetOpen(false);
      }
    }

    /** The window's keydown listener, attached only while the menu is open. */
    method KeyDown(key: Key, shift: bool)
      requires Valid()
      modifies this
      ensures Valid() && pathname == old(pathname)
      ensures !old(open) ==> open == old(open) && focus == old(focus)
      ensures old(open) && key == Escape ==>
                !open && focus == old(savedFocus).GetOr(old(focus)) && overflow == old(originalOverflow)
      ensures !(old(open) && key == Escape) ==>
                overflow == old(overflow) && savedFocus == old(savedFocus)
                && originalOverflow == old(originalOverflow)
      ensures old(open) && key == Tab ==>
                open && focus == TabTarget(Focusable(candidates), old(focus), shift).GetOr(old(focus))
      ensures old(open) && (key == ArrowDown || key == ArrowUp) ==>
                open && focus == ArrowTarget(items, old(focus), if key == ArrowDown then Down else Up)
                                   .GetOr(old(focus))
      ensures old(open) && key == OtherKey ==> open && focus == old(focus)
    {
      if !open {
        return;
      }
      match key {
        case Escape =>
          SetOpen(false);
        case Tab =>
          var target := TabTarget(Focusable(candidates), focus, shift);
          if target.Some? {
            focus := target.value;
          }
        case ArrowDown =>
          var target := ArrowTarget(items, focus, Down);
          if target.Some? {
            focus := target.value;
          }
        case ArrowUp =>
          var target := ArrowTarget(items, focus, Up);
          if target.Some? {
            focus := target.value;
          }
        case OtherKey =>
      }
    }
  }

  /** Opening the menu and pressing Escape puts back the focus and the overflow the page had
      before. */
  method OpenThenEscape(nav: Navigation)
    requires nav.Valid() && !nav.open
    modifies nav
    ensures nav.Valid() && !nav.open
    ensures nav.focus == old(nav.focus) && nav.overflow == old(nav.overflow)
  {
    nav.Toggle();
    nav.KeyDown(Escape, false);
  }

  /** What a click on an item may do. */
  datatype Action = SignOutThenClose
  datatype Effect = SignOut | CloseMenu

  /** A navigation entry: a link, or an action without one. */
  datatype NavLink = NavLink(href: Option<string>, name: string, accent: string,
                             onClick: Option<Action>)

  const AdminAccent := "linear-gradient(135deg, rgba(99, 102, 241, 0.7), rgba(168, 85, 247, 0.7))"
  const LogoutAccent := "linear-gradient(135deg, rgba(239, 68, 68, 0.7), rgba(252, 165, 165, 0.7))"

  function AdminItem(t: string -> string): NavLink {
    NavLink(Some("/admin"), t("common.admin"), AdminAccent, None)
  }

  function LogoutItem(t: string -> string): NavLink {
    NavLink(None, t("common.logout"), LogoutAccent, Some(SignOutThenClose))
  }

  function LoginItem(t: string -> string): NavLink {
    NavLink(Some("/auth"), t("common.login"), AdminAccent, None)
  }

  /** `mobileMenuItems`: the configured links with their labels translated; then, for a
      signed-in user, Admin (for an admin only) and Logout; for a visitor, Login. */
  function MobileMenuItems(links: seq<NavLink>, t: string -> string, signedIn: bool,
                           isAdmin: bool): (r: seq<NavLink>)
    ensures |r| == |links| + (if signedIn && isAdmin then 2 else 1)
    ensures forall i | 0 <= i < |links| :: r[i] == links[i].(name := t(links[i].name))
    ensures signedIn && isAdmin ==> r[|links|] == AdminItem(t)
    ensures r[|r| - 1] == if signedIn then LogoutItem(t) else LoginItem(t)
  {
    var translated := seq(|links|, i requires 0 <= i < |links| => links[i].(name := t(links[i].name)));
    if signedIn then
      translated + (if isAdmin then [AdminItem(t)] else []) + [LogoutItem(t)]
    else
      translated + [LoginItem(t)]
  }

  /** The admin link is offered only to a signed-in admin: every other entry comes from the
      configuration, or is Login or Logout. */
  lemma AdminOnlyForAdmins(links: seq<NavLink>, t: string -> string, signedIn: bool,
                           isAdmin: bool, k: nat)
    requires k < |MobileMenuItems(links, t, signedIn, isAdmin)|
    requires !(signedIn && isAdmin)
    ensures var r := MobileMenuItems(links, t, signedIn, isAdmin);
      k < |links| ==> r[k] == links[k].(name := t(links[k].name))
    ensures var r := MobileMenuItems(links, t, signedIn, isAdmin);
      k >= |links| ==> r[k] == (if signedIn then LogoutItem(t) else LoginItem(t))
  {
  }

  /** The item the mobile menu renders for an entry. */
  function ToItem(link: NavLink): FlowingMenu.Item {
    FlowingMenu.Item(link.href, link.name, Some(link.accent))
  }

  /** `isActive` of the desktop bar: a link is active when the path is its target, `#` for a
      link without one. */
  function DesktopActive(pathname: string, link: NavLink): (b: bool)
    ensures link.href.Some? && link.href.value != "" ==> (b <==> pathname == link.href.value)
    ensures (link.href.None? || link.href == Some("")) ==> (b <==> pathname == "#")
  {
    pathname == OrElse(link.href, "#")
  }

  /** In the mobile menu an entry without a link, such as Logout, is never active. */
  lemma LinklessNeverActive(pathname: string, link: NavLink)
    requires link.href.None?
    ensures !FlowingMenu.IsActive(Some(pathname), ToItem(link))
  {
  }

  /** What the header does with what the menu reports: every reported item closes the menu. */
  function Listener(events: seq<FlowingMenu.MenuEvent>): (r: seq<Effect>)
    ensures |r| <= |events|
    ensures forall e | e in r :: e == CloseMenu
  {
    if events == [] then []
    else (if events[0].Reported? then [CloseMenu] else []) + Listener(events[1..])
  }

  /** A click on a mobile entry as the code does it: the menu reports the entry, which only
      closes the menu; the entry's own `onClick` is never called. */
  function MobileClickAsWritten(link: NavLink): (r: seq<Effect>)
    ensures r == [CloseMenu]
  {
    var events := FlowingMenu.ItemClick(ToItem(link), true);
    assert events[1..] == [FlowingMenu.FollowLink(link.href)];
    assert Listener(events) == [CloseMenu] + Listener(events[1..]);
    Listener(events)
  }

  /** Clicking Logout in the mobile menu closes the menu and does not sign out. */
  lemma MobileLogoutDoesNotSignOut(t: string -> string)
    ensures MobileClickAsWritten(LogoutItem(t)) == [CloseMenu]
    ensures SignOut !in MobileClickAsWritten(LogoutItem(t))
  {
  }

  /** A click on a mobile entry as intended: an entry with its own action runs it (sign out,
      then close); any other entry closes the menu. */
  function MobileClick(link: NavLink): (r: seq<Effect>)
    ensures link.onClick == Some(SignOutThenClose) ==> r == [SignOut, CloseMenu]
    ensures link.onClick.None? ==> r == MobileClickAsWritten(link)
  {
    match link.onClick
    case Some(SignOutThenClose) => [SignOut, CloseMenu]
    case None =>
      [CloseMenu]
  }

  /** With the intended click, Logout signs out first, and every entry closes the menu. */
  lemma MobileLogoutSignsOut(t: string -> string, link: NavLink)
    ensures MobileClick(LogoutItem(t))[0] == SignOut
    ensures CloseMenu in MobileClick(link)
  {
  }
}
