/**
 * The navigation bar: a menu button toggles an `isOpen` flag; the menu
 * panel and the backdrop are shown while it is set, and clicking a menu
 * link, the featured call-to-action or the backdrop closes the menu. The six
 * menu links sit in a grid whose border classes depend on each link's index.
 */
module Navbar {

  datatype MenuItem = MenuItem(title: string, subtitle: string, href: string)

  /** The fixed menu links, in order. */
  const MenuItems: seq<MenuItem> := [
    MenuItem("About", "Explore our story", "#intro"),
    MenuItem("Services", "What we offer", "#services"),
    MenuItem("Portfolio", "Our recent work", "#works"),
    MenuItem("Testimonials", "What couples say", "#testimonials"),
    MenuItem("FAQ", "Common questions", "#faq"),
    MenuItem("Contact", "Get in touch", "#footer")
  ]

  /** The number of columns of the menu grid at the widest breakpoint. */
  const GridColumns: nat := 3

  /**
   * `(index + 1) % 3 !== 0`: the link gets a right border. In a grid of
   * three columns that is every link not in the last column.
   */
  predicate HasRightBorder(index: nat)
    ensures HasRightBorder(index) <==> index % GridColumns != GridColumns - 1
  {
    (index + 1) % 3 != 0
  }

  /**
   * `index < 3`: the link gets a bottom border. For the six links in three
   * columns that is every link not in the last row.
   */
  predicate HasBottomBorder(index: nat)
    ensures index < |MenuItems| ==>
      (HasBottomBorder(index) <==> index / GridColumns != (|MenuItems| - 1) / GridColumns)
  {
    index < 3
  }

  /** The six links: right borders on 0, 1, 3 and 4; bottom borders on 0, 1 and 2. */
  lemma MenuBorders()
    ensures |MenuItems| == 6
    ensures (set i: nat | i < |MenuItems| && HasRightBorder(i)) == {0, 1, 3, 4}
    ensures (set i: nat | i < |MenuItems| && HasBottomBorder(i)) == {0, 1, 2}
  {
    assert HasRightBorder(0) && HasRightBorder(1) && HasRightBorder(3) && HasRightBorder(4);
    assert !HasRightBorder(2) && !HasRightBorder(5);
  }

  /** The things on the navigation bar that can be clicked. */
  datatype Click = MenuButton | MenuLink(index: nat) | FeaturedCta | Backdrop

  /**
   * The menu flag after a click: the menu button negates it, every other
   * click closes the menu (those elements are only on screen while the menu
   * is open).
   */
  function AfterClick(isOpen: bool, click: Click): (next: bool)
    ensures click.MenuButton? ==> next == !isOpen
    ensures !click.MenuButton? ==> !next
  {
    match click
    case MenuButton => !isOpen
    case _ => false
  }

  /** The menu flag after a sequence of clicks. */
  function AfterClicks(isOpen: bool, clicks: seq<Click>): bool
    decreases clicks
  {
    if clicks == [] then isOpen else AfterClicks(AfterClick(isOpen, clicks[0]), clicks[1..])
  }

  /** The number of menu-button clicks in a sequence. */
  function ToggleCount(clicks: seq<Click>): nat
  {
    if clicks == [] then 0 else (if clicks[0].MenuButton? then 1 else 0) + ToggleCount(clicks[1..])
  }

  /**
   * After a run of menu-button clicks the menu has flipped exactly when the
   * button was clicked an odd number of times: two toggles restore the state.
   */
  lemma {:induction false} TogglesParity(isOpen: bool, clicks: seq<Click>)
    requires forall k :: 0 <= k < |clicks| ==> clicks[k].MenuButton?
    decreases clicks
    ensures AfterClicks(isOpen, clicks) == (isOpen != (ToggleCount(clicks) % 2 == 1))
  {
    if clicks != [] {
      TogglesParity(AfterClick(isOpen, clicks[0]), clicks[1..]);
    }
  }

  /** Any sequence of clicks whose last click is not the menu button leaves the menu closed. */
  lemma {:induction false} ClosedAfterNonToggle(isOpen: bool, clicks: seq<Click>)
    requires clicks != [] && !clicks[|clicks| - 1].MenuButton?
    decreases clicks
    ensures !AfterClicks(isOpen, clicks)
  {
    if |clicks| > 1 {
      ClosedAfterNonToggle(AfterClick(isOpen, clicks[0]), clicks[1..]);
    }
  }

  /** The navigation bar's state. */
  class Menu {
    var isOpen: bool

    /** The menu starts closed. */
    constructor ()
      ensures !isOpen
    {
      isOpen := false;
    }

    /** `isOpen && <panel>`: the menu panel is shown together with the backdrop. */
    predicate PanelShown()
      reads this
      ensures PanelShown() <==> BackdropShown()
    {
      isOpen
    }

    /** `isOpen && <backdrop>`: the backdrop is shown exactly while the menu is open. */
    predicate BackdropShown()
      reads this
      ensures BackdropShown() <==> isOpen
    {
      isOpen
    }

    /** `toggleMenu`: negates the flag. */
    method ToggleMenu()
      modifies this
      ensures isOpen == !old(isOpen)
    {
      isOpen := !isOpen;
    }

    /** `closeMenu`: always leaves the menu closed. */
    method CloseMenu()
      modifies this
      ensures !isOpen
    {
      isOpen := false;
    }

    /**
     * Dispatches a click to its handler: the menu button shows the panel and
     * the backdrop when they were hidden and hides them when they were shown;
     * any other click hides both.
     */
    method HandleClick(click: Click)
      modifies this
      ensures isOpen == AfterClick(old(isOpen), click)
      ensures click.MenuButton? ==>
        PanelShown() == !old(PanelShown()) && BackdropShown() == !old(BackdropShown())
      ensures !click.MenuButton? ==> !PanelShown() && !BackdropShown()
    {
      match click {
        case MenuButton => ToggleMenu();
        case MenuLink(_) => CloseMenu();
        case FeaturedCta => CloseMenu();
        case Backdrop => CloseMenu();
      }
    }
  }
}
