/** The fixed navigation bar: whether the page has scrolled past a threshold,
    and whether the mobile menu is open. The browser facts an event handler
    looks up (the scroll offset, whether a click landed inside the bar,
    which section elements exist) are passed in as plain values. */
module Navigation {
  import Portfolio
  import Testimonials
  import Contact

  /** The bar turns opaque once the page has scrolled strictly more than
      this many pixels. */
  const ScrollThreshold: real := 50.0

  datatype NavItem = NavItem(id: string, caption: string)

  const NavItems: seq<NavItem> := [
    NavItem("hero", "Home"),
    NavItem("portfolio", "Portfolio"),
    NavItem("services", "Services"),
    NavItem("testimonials", "Reviews"),
    NavItem("contact", "Contact")
  ]

  /** The ids of the section elements on the main page, in page order: the
      hero banner, the portfolio grid, the services list, the testimonial
      carousel and the contact form. */
  const RenderedSectionIds: seq<string> :=
    ["hero", Portfolio.SectionId, "services", Testimonials.SectionId, Contact.SectionId]

  /** An event that can change the mobile menu's state. */
  datatype MenuEvent =
    | MenuButton
    | DocumentClick(insideNav: bool)
    | NavigateTo(sectionId: string)

  /** Whether the mobile menu is open after `e`, given the ids of the section
      elements the page holds. */
  function MenuAfter(open: bool, e: MenuEvent, sections: set<string>): (r: bool)
    ensures e.MenuButton? ==> r != open
    ensures !e.MenuButton? ==> (r ==> open)
  {
    match e
    case MenuButton => !open
    case DocumentClick(inside) => if open && !inside then false else open
    case NavigateTo(id) => if id in sections then false else open
  }

  /** Only the menu button opens the menu; a click closes it exactly when it
      lands outside the bar while the menu is open; navigating closes it
      exactly when the target section exists. */
  lemma MenuTransitions(open: bool, e: MenuEvent, sections: set<string>)
    ensures MenuAfter(open, e, sections) && !open ==> e.MenuButton?
    ensures e.DocumentClick? ==>
              (MenuAfter(open, e, sections) != open <==> open && !e.insideNav)
    ensures e.NavigateTo? ==>
              (MenuAfter(open, e, sections) == (open && e.sectionId !in sections))
  {
  }

  lemma MenuButtonTwice(open: bool, sections: set<string>)
    ensures MenuAfter(MenuAfter(open, MenuButton, sections), MenuButton, sections) == open
  {
  }

  /** The state of the menu after a sequence of events. */
  function MenuAfterAll(open: bool, events: seq<MenuEvent>, sections: set<string>): bool
    decreases |events|
  {
    if events == [] then open
    else MenuAfterAll(MenuAfter(open, events[0], sections), events[1..], sections)
  }

  function CountMenuButtons(events: seq<MenuEvent>): nat
  {
    if events == [] then 0
    else (if events[0].MenuButton? then 1 else 0) + CountMenuButtons(events[1..])
  }

  /** Without a press of the menu button the menu never opens: if it ends
      open, it was open from the start. */
  lemma {:induction false} ClosedMenuStaysClosed(open: bool, events: seq<MenuEvent>, sections: set<string>)
    requires CountMenuButtons(events) == 0
    ensures MenuAfterAll(open, events, sections) ==> open
    decreases |events|
  {
    if events != [] {
      ClosedMenuStaysClosed(MenuAfter(open, events[0], sections), events[1..], sections);
    }
  }

  /** Pressing only the menu button, the menu ends in its starting state
      after an even number of presses and in the other state after an odd
      number. */
  lemma {:induction false} MenuButtonParity(open: bool, events: seq<MenuEvent>, sections: set<string>)
    requires forall k :: 0 <= k < |events| ==> events[k].MenuButton?
    ensures MenuAfterAll(open, events, sections) == (open != (CountMenuButtons(events) % 2 == 1))
    decreases |events|
  {
    if events != [] {
      MenuButtonParity(!open, events[1..], sections);
    }
  }

  /** Every navigation entry points at a section of the page, so every
      navigation click closes the menu. */
  lemma NavItemsTargetRenderedSections(k: nat, open: bool)
    requires k < |NavItems|
    ensures NavItems[k].id == RenderedSectionIds[k]
    ensures !MenuAfter(open, NavigateTo(NavItems[k].id), set s | s in RenderedSectionIds)
  {
  }

  /** The state of the navigation bar. */
  class NavigationBar {
    var isScrolled: bool
    var isMobileMenuOpen: bool

    constructor ()
      ensures !isScrolled && !isMobileMenuOpen
    {
      isScrolled := false;
      isMobileMenuOpen := false;
    }

    /** The window scrolled to offset `scrollY`. */
    method HandleScroll(scrollY: real)
      modifies this
      ensures isScrolled <==> scrollY > ScrollThreshold
      ensures isMobileMenuOpen == old(isMobileMenuOpen)
    {
      isScrolled := scrollY > ScrollThreshold;
    }

    /** A press of the mobile menu button. */
    method ToggleMobileMenu()
      modifies this
      ensures isMobileMenuOpen == MenuAfter(old(isMobileMenuOpen), MenuButton, {})
      ensures isMobileMenuOpen == !old(isMobileMenuOpen)
      ensures isScrolled == old(isScrolled)
    {
      isMobileMenuOpen := !isMobileMenuOpen;
    }

    /** A click anywhere in the document; `targetInsideNav` says whether the
        clicked element lies inside the navigation bar. */
    method HandleClickOutside(targetInsideNav: bool)
      modifies this
      ensures isMobileMenuOpen == MenuAfter(old(isMobileMenuOpen), DocumentClick(targetInsideNav), {})
      ensures isScrolled == old(isScrolled)
    {
      if isMobileMenuOpen && !targetInsideNav {
        isMobileMenuOpen := false;
      }
    }

    /** A click on the navigation entry for `sectionId`; `sections` holds the
        ids of the elements the document has. The scroll itself is left to
        the browser. */
    method ScrollToSection(sectionId: string, sections: set<string>)
      modifies this
      ensures isMobileMenuOpen == MenuAfter(old(isMobileMenuOpen), NavigateTo(sectionId), sections)
      ensures sectionId !in sections ==> isMobileMenuOpen == old(isMobileMenuOpen)
      ensures isScrolled == old(isScrolled)
    {
      if sectionId in sections {
        isMobileMenuOpen := false;
      }
    }
  }
}
