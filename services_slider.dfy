/**
 The services slider: two services per page, previous/next buttons that wrap
 around, one indicator dot per page, a play/pause button, and a recurring
 interval that advances the page while auto-play is on.
 */
module Services {
  import opened Paging

  /** Services shown side by side on one page. */
  const PerPage: nat := 2

  class ServicesSlider<T> {
    /** The `services` prop; the slider never changes it. */
    const services: seq<T>
    /** `currentSlide`: the index of the page on screen. */
    var currentSlide: nat
    /** `isAutoPlaying`: whether the advancing interval is installed. */
    var isAutoPlaying: bool
    /**
     How many times the auto-advance interval has been installed so far.  A
     new interval starts its countdown from zero; operations that leave this
     unchanged leave the running countdown alone.
     */
    ghost var intervalStarts: nat

    function SlideCount(): (k: nat)
      requires |services| >= 1
      ensures 1 <= k <= |services|
    {
      PageCountPositive(|services|, PerPage);
      PageCountLeast(|services|, PerPage, |services|);
      PageCount(|services|, PerPage)
    }

    ghost predicate Valid()
      reads this
    {
      |services| >= 1 && currentSlide < SlideCount()
    }

    /** Mounting: page 0, auto-play on, and the interval installed once. */
    constructor (services: seq<T>)
      requires |services| >= 1
      ensures Valid()
      ensures this.services == services
      ensures currentSlide == 0 && isAutoPlaying && intervalStarts == 1
    {
      this.services := services;
      currentSlide := 0;
      isAutoPlaying := true;
      intervalStarts := 1;
    }

    /** The right-arrow button. */
    method NextSlide()
      requires Valid()
      modifies this
      ensures Valid()
      ensures currentSlide == NextPage(old(currentSlide), SlideCount())
      ensures isAutoPlaying == old(isAutoPlaying) && intervalStarts == old(intervalStarts)
    {
      currentSlide := (currentSlide + 1) % SlideCount();
    }

    /** The left-arrow button. */
    method PrevSlide()
      requires Valid()
      modifies this
      ensures Valid()
      ensures currentSlide == PrevPage(old(currentSlide), SlideCount())
      ensures isAutoPlaying == old(isAutoPlaying) && intervalStarts == old(intervalStarts)
    {
      currentSlide := (currentSlide - 1 + SlideCount()) % SlideCount();
    }

    /**
     A click on indicator dot `index`.  The dots are generated for
     `0 <= index < SlideCount()` only, so no other index reaches here.
     */
    method JumpTo(index: nat)
      requires Valid()
      requires index < SlideCount()
      modifies this
      ensures Valid()
      ensures currentSlide == index
      ensures isAutoPlaying == old(isAutoPlaying) && intervalStarts == old(intervalStarts)
    {
      currentSlide := index;
    }

    /**
     The play/pause button.  Changing `isAutoPlaying` tears the interval
     down; switching it on installs a fresh one.
     */
    method ToggleAutoPlay()
      requires Valid()
      modifies this
      ensures Valid()
      ensures isAutoPlaying == !old(isAutoPlaying)
      ensures currentSlide == old(currentSlide)
      ensures intervalStarts == if isAutoPlaying then old(intervalStarts) + 1 else old(intervalStarts)
    {
      isAutoPlaying := !isAutoPlaying;
      if isAutoPlaying {
        intervalStarts := intervalStarts + 1;
      }
    }

    /**
     One firing of the interval, every 4000 ms.  There is no interval while
     auto-play is off, so then nothing happens; otherwise it takes the same
     step as the right-arrow button and keeps running.
     */
    method Tick()
      requires Valid()
      modifies this
      ensures Valid()
      ensures currentSlide == if old(isAutoPlaying) then NextPage(old(currentSlide), SlideCount()) else old(currentSlide)
      ensures isAutoPlaying == old(isAutoPlaying) && intervalStarts == old(intervalStarts)
    {
      if isAutoPlaying {
        currentSlide := (currentSlide + 1) % SlideCount();
      }
    }

    /** The services rendered on the current page. */
    function VisibleServices(): (r: seq<T>)
      reads this
      requires Valid()
      ensures 1 <= |r| <= PerPage
      ensures r == services[PerPage * currentSlide..Min(PerPage * currentSlide + PerPage, |services|)]
      ensures currentSlide < SlideCount() - 1 ==> |r| == PerPage
    {
      PageSliceShape(services, currentSlide, PerPage);
      PageSlice(services, currentSlide, PerPage)
    }

    /**
     The indicator dots, each saying whether it is the highlighted one: there
     is a dot for exactly the page indices that show at least one service.
     */
    function Indicators(): (dots: seq<bool>)
      reads this
      requires Valid()
      ensures |dots| == SlideCount()
      ensures forall index: nat :: index < |dots| <==> PageSlice(services, index, PerPage) != []
      ensures forall index :: 0 <= index < |dots| ==> (dots[index] <==> index == currentSlide)
    {
      forall index: nat ensures index < SlideCount() <==> PageSlice(services, index, PerPage) != [] {
        PageNonEmptyIff(services, PerPage, index);
      }
      var current := currentSlide;
      seq(SlideCount(), index => index == current)
    }
  }
}
