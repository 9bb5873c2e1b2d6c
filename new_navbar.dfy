/**
 * The floating navbar with hover dropdowns: which dropdown is open, whether
 * the bar is shown, and the last scroll offset. Hiding on scroll also closes
 * the open dropdown.
 */
module NewNavbar {
  import opened Wrappers
  import ScrollRule

  class Navbar {
    /** The item whose dropdown is open (`null` for none). */
    var active: Option<string>
    var isVisible: bool
    var lastScrollY: real

    constructor ()
      ensures active == None && isVisible && lastScrollY == 0.0
    {
      active := None;
      isVisible := true;
      lastScrollY := 0.0;
    }

    /** The scroll listener: show/hide by the shared rule, close the dropdown when hiding, remember the offset. */
    method HandleScroll(currentScrollY: real)
      modifies this
      ensures var v := ScrollRule.Decide(currentScrollY, old(lastScrollY));
              && isVisible == ScrollRule.Apply(v, old(isVisible))
              && active == (if v == ScrollRule.Hide then None else old(active))
      ensures lastScrollY == currentScrollY
    {
      if currentScrollY < lastScrollY || currentScrollY < 100.0 {
        isVisible := true;
      } else if currentScrollY > lastScrollY && currentScrollY > 100.0 {
        isVisible := false;
        active := None;
      }
      lastScrollY := currentScrollY;
    }

    /** `setActive`, handed to the menu: hovering an item opens its dropdown, leaving the menu passes `null`. */
    method SetActive(item: Option<string>)
      modifies this
      ensures active == item
      ensures isVisible == old(isVisible) && lastScrollY == old(lastScrollY)
    {
      active := item;
    }
  }

  /** A hidden bar never has a dropdown open that the scroll that hid it left behind. */
  method HideClosesDropdown(item: string, down: real) returns (n: Navbar)
    requires down > 100.0
    ensures fresh(n) && !n.isVisible && n.active == None
  {
    n := new Navbar();
    n.SetActive(Some(item));
    n.HandleScroll(down);
  }
}
