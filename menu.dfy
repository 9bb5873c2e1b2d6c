/**
 * The home page header: a floating desktop navigation that hides on scroll
 * down and shows on scroll up, a list of navigation items of which the
 * clicked one is highlighted, and a sliding mobile panel that the menu button
 * opens and that its close button, any of its links, or a hiding scroll
 * closes.
 */
module Menu {
  import ScrollRule

  datatype NavItem = NavItem(name: string, href: string, isActive: bool)

  /** The navigation as first rendered: four items, the first one active. */
  const InitialNav: seq<NavItem> := [
    NavItem("Inicio", "/", true),
    NavItem("Servicios", "/#services", false),
    NavItem("Info", "/#about", false),
    NavItem("Contacto", "/#contact", false)
  ]

  /** `setActiveNavItem`'s update: the same items, active exactly when named `selected`. */
  function WithActive(items: seq<NavItem>, selected: string): (r: seq<NavItem>)
    ensures |r| == |items|
    ensures forall i :: 0 <= i < |r| ==>
              r[i].name == items[i].name && r[i].href == items[i].href && (r[i].isActive <==> items[i].name == selected)
  {
    if items == [] then []
    else [items[0].(isActive := items[0].name == selected)] + WithActive(items[1..], selected)
  }

  /** No two items share a name. */
  predicate DistinctNames(items: seq<NavItem>) {
    forall i, j :: 0 <= i < j < |items| ==> items[i].name != items[j].name
  }

  /** Among items with distinct names, choosing a name present makes exactly that one item active; choosing an absent one, none. */
  lemma ExactlyOneActive(items: seq<NavItem>, selected: string, k: int)
    requires DistinctNames(items)
    requires 0 <= k < |items| && items[k].name == selected
    ensures WithActive(items, selected)[k].isActive
    ensures forall j :: 0 <= j < |items| && j != k ==> !WithActive(items, selected)[j].isActive
  {
  }

  /** Choosing a name no item has leaves every item inactive. */
  lemma NoneActive(items: seq<NavItem>, selected: string)
    requires forall i :: 0 <= i < |items| ==> items[i].name != selected
    ensures forall i :: 0 <= i < |items| ==> !WithActive(items, selected)[i].isActive
  {
  }

  /** The initial navigation is the one where "Inicio" has been chosen, and only it is active. */
  lemma InitialOnlyInicio()
    ensures DistinctNames(InitialNav)
    ensures WithActive(InitialNav, "Inicio") == InitialNav
    ensures forall i :: 0 <= i < |InitialNav| ==> (InitialNav[i].isActive <==> i == 0)
  {
    var r := WithActive(InitialNav, "Inicio");
    assert r[0] == InitialNav[0] && r[1] == InitialNav[1] && r[2] == InitialNav[2] && r[3] == InitialNav[3];
  }

  class Menu {
    var mobileMenuOpen: bool
    var isVisible: bool
    var lastScrollY: real
    var navMenu: seq<NavItem>

    constructor ()
      ensures !mobileMenuOpen && isVisible && lastScrollY == 0.0 && navMenu == InitialNav
    {
      mobileMenuOpen := false;
      isVisible := true;
      lastScrollY := 0.0;
      navMenu := InitialNav;
    }

    /** The scroll listener: apply the show/hide rule, close the mobile panel when hiding, remember the offset. */
    method HandleScroll(currentScrollY: real)
      modifies this
      ensures var v := ScrollRule.Decide(currentScrollY, old(lastScrollY));
              && isVisible == ScrollRule.Apply(v, old(isVisible))
              && mobileMenuOpen == (if v == ScrollRule.Hide then false else old(mobileMenuOpen))
      ensures lastScrollY == currentScrollY
      ensures navMenu == old(navMenu)
    {
      if currentScrollY < lastScrollY || currentScrollY < 100.0 {
        isVisible := true;
      } else if currentScrollY > lastScrollY && currentScrollY > 100.0 {
        isVisible := false;
        mobileMenuOpen := false;
      }
      lastScrollY := currentScrollY;
    }

    /** A click on a desktop navigation link highlights it. */
    method SetActiveNavItem(selectedName: string)
      modifies this
      ensures navMenu == WithActive(old(navMenu), selectedName)
      ensures isVisible == old(isVisible) && mobileMenuOpen == old(mobileMenuOpen) && lastScrollY == old(lastScrollY)
    {
      navMenu := WithActive(navMenu, selectedName);
    }

    /** The menu button opens the mobile panel. */
    method OpenMobileMenu()
      modifies this
      ensures mobileMenuOpen
      ensures isVisible == old(isVisible) && lastScrollY == old(lastScrollY) && navMenu == old(navMenu)
    {
      mobileMenuOpen := true;
    }

    /** The close button, and every link of the mobile panel, close it (a mobile link does not change the highlight). */
    method CloseMobileMenu()
      modifies this
      ensures !mobileMenuOpen
      ensures isVisible == old(isVisible) && lastScrollY == old(lastScrollY) && navMenu == old(navMenu)
    {
      mobileMenuOpen := false;
    }
  }
}
