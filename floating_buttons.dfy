/**
 The floating action buttons (back to top, chat, profile): hidden at mount
 and, on every scroll event, shown or hidden from the vertical scroll offset
 alone.
 */
module Floating {

  /** The offset, in CSS pixels, past which the buttons appear. */
  const ScrollThreshold: real := 300.0

  /** The buttons are shown when the page is scrolled strictly past the threshold. */
  predicate ShownAt(offset: real)
  {
    offset > ScrollThreshold
  }

  /** Scrolling further down never hides buttons that are already shown. */
  lemma ShownUpwardClosed(offset: real, further: real)
    requires ShownAt(offset) && offset <= further
    ensures ShownAt(further)
  {
  }

  /** At 300 itself the buttons stay hidden; just past it they show. */
  lemma ThresholdIsStrict()
    ensures !ShownAt(300.0) && ShownAt(300.5)
  {
  }

  class FloatingButtons {
    /** `isVisible`: whether the buttons are rendered. */
    var isVisible: bool

    /** Mounting: hidden until the first scroll event. */
    constructor ()
      ensures !isVisible
    {
      isVisible := false;
    }

    /** The scroll listener, given `window.pageYOffset`. */
    method OnScroll(offset: real)
      modifies this
      ensures isVisible == ShownAt(offset)
    {
      if offset > 300.0 {
        isVisible := true;
      } else {
        isVisible := false;
      }
    }
  }
}
