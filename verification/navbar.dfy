/** The site's navigation bar: the mobile menu's open flag, the one mobile
    submenu that may be expanded, the "scrolled" look, and the avatar letter. */
module Navbar {
  import opened Values

  /** A submenu entry and a top-level entry of `NAV_ITEMS`. */
  datatype SubMenuItem = SubMenuItem(name: string, href: string)
  datatype NavItem = NavItem(name: string, href: string, items: Option<seq<SubMenuItem>>)

  /** The entries the bar currently lists; the ones with submenus are commented out. */
  const NavItems: seq<NavItem> := [
    NavItem("首頁", "/", None),
    NavItem("最新消息", "/news", None)]

  /** The page scrolls this many pixels before the bar takes its "scrolled" look. */
  const ScrollThreshold: real := 20.0

  /** The bar's state: `isOpen`, `mobileSubMenuOpen` and `scrolled`. */
  datatype NavState = NavState(isOpen: bool, subMenu: Option<nat>, scrolled: bool)

  const Initial: NavState := NavState(false, None, false)

  /** The mobile submenu of entry `k` is expanded on screen. */
  predicate SubMenuShown(s: NavState, k: nat) {
    s.isOpen && s.subMenu == Some(k)
  }

  /** `handleScroll`: the bar looks scrolled exactly when the page is more than
      the threshold down. */
  function ScrolledAt(scrollY: real): (r: bool)
    ensures r <==> scrollY > ScrollThreshold
  {
    scrollY > 20.0
  }

  /** `toggleMobileSubMenu`: the open submenu closes when its own button is
      pressed; any other button opens its submenu and closes the rest. */
  function ToggleSubMenu(s: NavState, index: nat): (r: NavState)
    ensures s.subMenu == Some(index) ==> r.subMenu.None?
    ensures s.subMenu != Some(index) ==> r.subMenu == Some(index)
    ensures forall k: nat :: SubMenuShown(r, k) ==> k == index
    ensures r.isOpen == s.isOpen && r.scrolled == s.scrolled
  {
    if s.subMenu == Some(index) then s.(subMenu := None) else s.(subMenu := Some(index))
  }

  /** Pressing the same submenu button twice restores a closed menu or that
      submenu itself, and closes any other submenu that was open before. */
  lemma ToggleTwice(s: NavState, index: nat)
    ensures s.subMenu.None? || s.subMenu == Some(index) ==> ToggleSubMenu(ToggleSubMenu(s, index), index) == s
    ensures s.subMenu.Some? && s.subMenu != Some(index) ==> ToggleSubMenu(ToggleSubMenu(s, index), index).subMenu.None?
  {
  }

  /** The effect on the bar of a route change: menu and submenu closed. */
  function RouteChanged(s: NavState): (r: NavState)
    ensures !r.isOpen && r.subMenu.None?
    ensures r.scrolled == s.scrolled
    ensures forall k: nat :: !SubMenuShown(r, k)
  {
    s.(isOpen := false, subMenu := None)
  }

  /** The hamburger button flips the mobile menu and touches nothing else. */
  function Hamburger(s: NavState): (r: NavState)
    ensures r.isOpen != s.isOpen
    ensures r.(isOpen := s.isOpen) == s
  {
    s.(isOpen := !s.isOpen)
  }

  /** Pressing the hamburger twice leaves the bar as it was. */
  lemma HamburgerTwice(s: NavState)
    ensures Hamburger(Hamburger(s)) == s
  {
  }

  /** A mobile link or the mobile logout button closes the menu; the submenu
      index is kept and shows again when the menu is reopened. */
  function CloseMenu(s: NavState): (r: NavState)
    ensures !r.isOpen
    ensures r.(isOpen := s.isOpen) == s
    ensures forall k: nat :: !SubMenuShown(r, k)
  {
    s.(isOpen := false)
  }

  /** The things that can happen to the bar. */
  datatype Event =
    | PageScrolled(scrollY: real)
    | RouteChange
    | HamburgerClicked
    | SubMenuButtonClicked(index: nat)
    | MobileLinkClicked
    | MobileLogoutClicked

  /** An event can occur: a submenu button exists only inside the open mobile
      panel and only for an entry that has a submenu, and the mobile links and
      logout button only inside the open panel. */
  predicate Enabled(s: NavState, e: Event) {
    match e
    case SubMenuButtonClicked(i) => s.isOpen && i < |NavItems| && NavItems[i].items.Some?
    case MobileLinkClicked => s.isOpen
    case MobileLogoutClicked => s.isOpen
    case _ => true
  }

  function Step(s: NavState, e: Event): NavState {
    match e
    case PageScrolled(y) => s.(scrolled := ScrolledAt(y))
    case RouteChange => RouteChanged(s)
    case HamburgerClicked => Hamburger(s)
    case SubMenuButtonClicked(i) => ToggleSubMenu(s, i)
    case MobileLinkClicked => CloseMenu(s)
    case MobileLogoutClicked => CloseMenu(s)
  }

  /** The expanded submenu, if any, belongs to a listed entry that has one. */
  predicate Valid(s: NavState) {
    s.subMenu.Some? ==> s.subMenu.value < |NavItems| && NavItems[s.subMenu.value].items.Some?
  }

  /** Every enabled event keeps the bar valid. */
  lemma StepKeepsValid(s: NavState, e: Event)
    requires Valid(s) && Enabled(s, e)
    ensures Valid(Step(s, e))
  {
  }

  /** The bar after a run of events, each enabled where it happens. */
  function Run(s: NavState, events: seq<Event>): NavState
    decreases |events|
  {
    if |events| == 0 then s else Run(Step(s, events[0]), events[1..])
  }

  predicate AllEnabled(s: NavState, events: seq<Event>)
    decreases |events|
  {
    |events| == 0 || (Enabled(s, events[0]) && AllEnabled(Step(s, events[0]), events[1..]))
  }

  /** Since no listed entry has a submenu, no submenu is ever expanded. */
  lemma {:induction false} NoSubMenuEverOpens(events: seq<Event>)
    requires AllEnabled(Initial, events)
    ensures Run(Initial, events).subMenu.None?
  {
    RunKeepsValid(Initial, events);
    NoEntryHasSubMenu();
  }

  lemma {:induction false} RunKeepsValid(s: NavState, events: seq<Event>)
    requires Valid(s) && AllEnabled(s, events)
    ensures Valid(Run(s, events))
    decreases |events|
  {
    if |events| > 0 {
      StepKeepsValid(s, events[0]);
      RunKeepsValid(Step(s, events[0]), events[1..]);
    }
  }

  lemma NoEntryHasSubMenu()
    ensures forall i :: 0 <= i < |NavItems| ==> NavItems[i].items.None?
  {
  }

  /** `user.name?.charAt(0) || 'U'`: the first character of the name, or "U"
      when the name is missing or empty. */
  function AvatarInitial(name: Field): (r: string)
    ensures |r| == 1
    ensures name.Str? && |name.text| > 0 ==> r == name.text[..1]
    ensures !(name.Str? && |name.text| > 0) ==> r == "U"
  {
    match name
    case Str(t) => if |t| > 0 then [t[0]] else "U"
    case _ => "U"
  }
}
