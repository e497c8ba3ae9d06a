/**
 The testimonials carousel: one testimonial at a time, previous/next buttons
 that wrap around, one indicator dot per testimonial, and a recurring
 interval that advances while auto-play is on.  Unlike the services slider
 it has no play/pause button, so auto-play, switched on at mount, stays on.
 */
module Testimonials {
  import opened Paging

  class TestimonialsCarousel<T> {
    /** The `testimonials` prop; the carousel never changes it. */
    const testimonials: seq<T>
    /** `currentTestimonial`: the index of the testimonial on screen. */
    var currentTestimonial: nat
    /** `isAutoPlaying`: initialised to true; no handler of the carousel sets it. */
    var isAutoPlaying: bool

    ghost predicate Valid()
      reads this
    {
      |testimonials| >= 1 && currentTestimonial < |testimonials| && isAutoPlaying
    }

    /** Mounting: the first testimonial, auto-play on. */
    constructor (testimonials: seq<T>)
      requires |testimonials| >= 1
      ensures Valid()
      ensures this.testimonials == testimonials
      ensures currentTestimonial == 0
    {
      this.testimonials := testimonials;
      currentTestimonial := 0;
      isAutoPlaying := true;
    }

    /** The right-arrow button. */
    method Next()
      requires Valid()
      modifies this
      ensures Valid()
      ensures currentTestimonial == NextPage(old(currentTestimonial), |testimonials|)
    {
      currentTestimonial := (currentTestimonial + 1) % |testimonials|;
    }

    /** The left-arrow button. */
    method Prev()
      requires Valid()
      modifies this
      ensures Valid()
      ensures currentTestimonial == PrevPage(old(currentTestimonial), |testimonials|)
    {
      currentTestimonial := (currentTestimonial - 1 + |testimonials|) % |testimonials|;
    }

    /**
     A click on indicator dot `index`; the dots are generated one per
     testimonial, so `index` is always in range.
     */
    method JumpTo(index: nat)
      requires Valid()
      requires index < |testimonials|
      modifies this
      ensures Valid()
      ensures currentTestimonial == index
    {
      currentTestimonial := index;
    }

    /**
     One firing of the interval, every 5000 ms: the same step as the right-arrow button
     when auto-play is on, which in this carousel it always is.
     */
    method Tick()
      requires Valid()
      modifies this
      ensures Valid()
      ensures currentTestimonial == NextPage(old(currentTestimonial), |testimonials|)
    {
      if isAutoPlaying {
        currentTestimonial := (currentTestimonial + 1) % |testimonials|;
      }
    }

    /**
     The testimonial on screen: the carousel is the paging machine with one
     item per page, so it is the whole of page `currentTestimonial`.
     */
    function Current(): (t: T)
      reads this
      requires Valid()
      ensures [t] == PageSlice(testimonials, currentTestimonial, 1)
      ensures currentTestimonial < PageCount(|testimonials|, 1)
    {
      PageCountOne(|testimonials|);
      PageSliceShape(testimonials, currentTestimonial, 1);
      testimonials[currentTestimonial]
    }

    /** The indicator dots, each saying whether it is the highlighted one. */
    function Indicators(): (dots: seq<bool>)
      reads this
      requires Valid()
      ensures |dots| == |testimonials| == PageCount(|testimonials|, 1)
      ensures forall index :: 0 <= index < |dots| ==> (dots[index] <==> index == currentTestimonial)
    {
      PageCountOne(|testimonials|);
      var current := currentTestimonial;
      seq(|testimonials|, index => index == current)
    }
  }
}
