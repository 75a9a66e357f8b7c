/** The back-to-top button. It is created hidden; on every scroll (through
    an animation frame) it is shown when the page is scrolled more than
    350 pixels down and hidden otherwise. Its click scrolls the window to
    the top, which is outside this model. */
module BackToTop {

  /** The three inline style fields the toggle writes. */
  datatype ButtonStyle = ButtonStyle(opacity: string, transform: string, pointerEvents: string)

  const ShownStyle: ButtonStyle := ButtonStyle("1", "translateY(0)", "auto")
  const HiddenStyle: ButtonStyle := ButtonStyle("0", "translateY(12px)", "none")

  /** The scroll offset past which the button is offered. */
  const Threshold: real := 350.0

  /** Whether a style is the shown one: visible, in place and clickable. */
  predicate IsShown(st: ButtonStyle) {
    st.opacity == "1" && st.transform == "translateY(0)" && st.pointerEvents == "auto"
  }

  /** Whether a style is the hidden one: invisible, shifted down and
      letting clicks through. */
  predicate IsHidden(st: ButtonStyle) {
    st.opacity == "0" && st.transform == "translateY(12px)" && st.pointerEvents == "none"
  }

  /** `toggleBackToTop` for a scroll offset. */
  function StyleFor(scrollY: real): (st: ButtonStyle)
    ensures IsShown(st) <==> scrollY > Threshold
    ensures IsHidden(st) <==> scrollY <= Threshold
  {
    if scrollY > 350.0 then ShownStyle else HiddenStyle
  }

  /** The three fields always move together: the button is never visible
      but unclickable, nor clickable but invisible. */
  lemma FieldsAgree(scrollY: real)
    ensures StyleFor(scrollY).opacity == "1" <==> StyleFor(scrollY).pointerEvents == "auto"
    ensures StyleFor(scrollY) == ShownStyle || StyleFor(scrollY) == HiddenStyle
  {
  }

  /** Scrolling further down never hides a shown button, and scrolling up
      never shows a hidden one. */
  lemma Monotone(y1: real, y2: real)
    requires y1 <= y2
    ensures IsShown(StyleFor(y1)) ==> IsShown(StyleFor(y2))
    ensures IsHidden(StyleFor(y2)) ==> IsHidden(StyleFor(y1))
  {
  }

  /** The threshold itself, and the top of the page, leave it hidden; the
      style depends on the offset only, not on what was there before. */
  lemma Boundary()
    ensures StyleFor(350.0) == HiddenStyle && StyleFor(0.0) == HiddenStyle
    ensures StyleFor(350.5) == ShownStyle
  {
  }

  /** The button as the page holds it. */
  class BackToTopButton {
    var style: ButtonStyle

    /** Created with the hidden style. */
    constructor ()
      ensures style == HiddenStyle && IsHidden(style)
    {
      style := HiddenStyle;
    }

    /** One run of `toggleBackToTop`. */
    method Toggle(scrollY: real)
      modifies this
      ensures style == StyleFor(scrollY)
      ensures IsShown(style) <==> scrollY > Threshold
    {
      if scrollY > 350.0 {
        style := style.(opacity := "1");
        style := style.(transform := "translateY(0)");
        style := style.(pointerEvents := "auto");
      } else {
        style := style.(opacity := "0");
        style := style.(transform := "translateY(12px)");
        style := style.(pointerEvents := "none");
      }
    }
  }
}
