/** The mobile navigation toggle. Three pieces of page state: the toggle
    button's `aria-expanded` attribute (a string, or absent), the button's
    `open` class and the menu's `open` class. A click on the button flips
    both classes and writes the negation of "aria-expanded is the string
    true"; a click on any link inside an open menu closes everything. The
    handlers exist only when both the button and the menu are on the page. */
module NavToggle {

  /** An attribute as `getAttribute` sees it: absent (`null`) or a string. */
  datatype Attr = Absent | Value(text: string)

  datatype NavState = NavState(ariaExpanded: Attr, toggleOpen: bool, menuOpen: bool)

  /** `getAttribute("aria-expanded") === "true"`: an absent attribute, or
      any other string, reads as false. */
  predicate IsExpanded(a: Attr)
    ensures IsExpanded(a) ==> a != Absent
  {
    a == Value("true")
  }

  /** `String(b)` for a boolean. */
  function BoolString(b: bool): (s: string)
    ensures IsExpanded(Value(s)) <==> b
  {
    if b then "true" else "false"
  }

  /** The toggle button's click handler. */
  function ToggleClick(s: NavState): (r: NavState)
    ensures r.toggleOpen == !s.toggleOpen && r.menuOpen == !s.menuOpen
    ensures IsExpanded(r.ariaExpanded) == !IsExpanded(s.ariaExpanded)
    ensures r.ariaExpanded == Value("true") || r.ariaExpanded == Value("false")
  {
    NavState(Value(BoolString(!IsExpanded(s.ariaExpanded))), !s.toggleOpen, !s.menuOpen)
  }

  /** A menu link's click handler. */
  function LinkClick(s: NavState): (r: NavState)
    ensures !r.menuOpen
    ensures s.menuOpen ==> !r.toggleOpen && r.ariaExpanded == Value("false")
    ensures !s.menuOpen ==> r == s
  {
    if s.menuOpen then NavState(Value("false"), false, false) else s
  }

  /** Closed and open, with the attribute and both classes agreeing. */
  predicate Consistent(s: NavState) {
    s.toggleOpen == s.menuOpen && IsExpanded(s.ariaExpanded) == s.menuOpen
  }

  /** The weaker agreement "aria-expanded is true exactly when both
      elements are open". */
  predicate ExpandedIffBothOpen(s: NavState) {
    IsExpanded(s.ariaExpanded) <==> (s.toggleOpen && s.menuOpen)
  }

  /** A toggle click keeps a consistent state consistent and flips it
      between closed and open. */
  lemma ToggleKeepsConsistent(s: NavState)
    requires Consistent(s)
    ensures Consistent(ToggleClick(s))
    ensures ToggleClick(s).menuOpen == !s.menuOpen
  {
  }

  /** A link click keeps a consistent state consistent. */
  lemma LinkKeepsConsistent(s: NavState)
    requires Consistent(s)
    ensures Consistent(LinkClick(s))
  {
  }

  /** A link click with the menu open leaves everything closed; with the
      menu not open it changes nothing. */
  lemma LinkClickCloses(s: NavState)
    ensures s.menuOpen ==> LinkClick(s) == NavState(Value("false"), false, false)
    ensures !s.menuOpen ==> LinkClick(s) == s
    ensures !LinkClick(s).menuOpen && LinkClick(LinkClick(s)) == LinkClick(s)
  {
  }

  /** Two toggle clicks restore both classes and what the attribute reads
      as; they restore the attribute itself exactly when it was already the
      string "true" or "false" (an absent or other value becomes "false"). */
  lemma DoubleToggle(s: NavState)
    ensures ToggleClick(ToggleClick(s)).toggleOpen == s.toggleOpen
    ensures ToggleClick(ToggleClick(s)).menuOpen == s.menuOpen
    ensures IsExpanded(ToggleClick(ToggleClick(s)).ariaExpanded) == IsExpanded(s.ariaExpanded)
    ensures ToggleClick(ToggleClick(s)) == s <==>
              (s.ariaExpanded == Value("true") || s.ariaExpanded == Value("false"))
  {
  }

  /** An absent attribute is read as false, so the first click opens. */
  lemma AbsentReadsAsClosed(toggleOpen: bool, menuOpen: bool)
    ensures ToggleClick(NavState(Absent, toggleOpen, menuOpen)).ariaExpanded == Value("true")
  {
  }

  /** The weaker agreement is not kept by a toggle click: with only the
      button marked open, a click marks only the menu open and sets the
      attribute to "true". */
  lemma ExpandedIffBothOpenNotKept()
    ensures ExpandedIffBothOpen(NavState(Value("false"), true, false))
    ensures !ExpandedIffBothOpen(ToggleClick(NavState(Value("false"), true, false)))
  {
  }

  /** The button and the menu as the page holds them. */
  class NavMenu {
    var ariaExpanded: Attr
    var toggleOpen: bool
    var menuOpen: bool

    function State(): NavState
      reads this
    {
      NavState(ariaExpanded, toggleOpen, menuOpen)
    }

    constructor (ariaExpanded: Attr, toggleOpen: bool, menuOpen: bool)
      ensures State() == NavState(ariaExpanded, toggleOpen, menuOpen)
    {
      this.ariaExpanded := ariaExpanded;
      this.toggleOpen := toggleOpen;
      this.menuOpen := menuOpen;
    }

    /** `navToggle`'s click listener. */
    method OnToggleClick()
      modifies this
      ensures State() == ToggleClick(old(State()))
      ensures old(Consistent(State())) ==> Consistent(State())
    {
      var expanded := ariaExpanded == Value("true");
      ariaExpanded := Value(if !expanded then "true" else "false");
      toggleOpen := !toggleOpen;
      menuOpen := !menuOpen;
    }

    /** The click listener of every link inside `navMenu`. */
    method OnLinkClick()
      modifies this
      ensures State() == LinkClick(old(State()))
      ensures old(Consistent(State())) ==> Consistent(State())
    {
      if menuOpen {
        menuOpen := false;
        toggleOpen := false;
        ariaExpanded := Value("false");
      }
    }
  }
}
