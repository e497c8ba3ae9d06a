# Carousel paging, stat counters and floating buttons of the AHK Global Solutions site

This is a Dafny model of the stateful logic of four widgets in the site's single-page
React application, `src/App.jsx`.

- **Services slider** (`ServicesSlider`). It shows the services two per page. Next and
  previous wrap around. One indicator dot is drawn per page, and clicking a dot jumps to
  that page. A play/pause button switches auto-play, and a 4000 ms interval advances the
  page while auto-play is on.
- **Testimonials carousel** (`TestimonialsCarousel`). It runs the same machine with one
  testimonial per page and a 5000 ms interval. It has no play/pause button.
- **Animated counter** (`AnimatedCounter`). Only its text handling is modelled. The
  target number comes from the digits of a stat string such as `"500+"`. The number on
  screen ends in `+` when the stat string contains one.
- **Floating buttons** (`FloatingButtons`). They are hidden at mount. After each scroll
  event they are visible exactly when the scroll offset is more than 300 pixels. A page
  that mounts already scrolled past 300 keeps them hidden until the first scroll event.

Layout:

- `paging.dfy` (module `Paging`): the page arithmetic both carousels share, as pure
  functions, with lemmas.
  - The page count is `ceil(n / size)`.
  - The next and previous index wrap modulo the page count.
  - A page is a clamped `slice` of the items.
- `services_slider.dfy` (module `Services`) and `testimonials_carousel.dfy` (module
  `Testimonials`): the two widgets as classes. Their fields are the components' state
  variables. Their methods are the button handlers and the interval callback.
  - Each method states the new state in terms of the `Paging` functions.
  - Each method keeps the object invariant: the index stays in range.
- `counter.dfy` (module `Counter`): the digit extraction, the decimal reading and
  writing, and the `+` rule.
- `floating_buttons.dfy` (module `Floating`): the scroll threshold and the listener.

Points where the code's behaviour is easy to misread:

- **Timer reset.** Next, previous and indicator clicks do not restart the auto-advance
  countdown. The interval effect depends only on `isAutoPlaying` and the list length
  (`src/App.jsx:135`, `src/App.jsx:279`). A manual step in the middle of an interval
  window is followed by an automatic step when that same window ends. The slider states
  this with an `intervalStarts` counter that only a toggle to "on" increases.
- **Empty list.** The code has no guard for an empty list (`% 0` gives `NaN`), so a
  non-empty list is a precondition.
- **Out-of-range jumps.** The code does not reject an out-of-range jump. Only the
  indicator loops call it, with indices below the page count, so the index is a
  precondition.
- **Testimonials pause.** The testimonials carousel has no pause. Its `isAutoPlaying`
  starts true and nothing sets it, so the object invariant includes it.

## Model

| member | source | states |
|---|---|---|
| `Paging.PageCount` | src/App.jsx:138 | `Math.ceil(n / size)` is a count of pages that holds all n items, with room for fewer than one spare page |
| `Paging.PageCountLeast` | src/App.jsx:138 | any number of pages that holds all items is at least the page count, so it is the least such |
| `Paging.PageCountPositive` | src/App.jsx:182 | there is at least one page (one indicator) exactly when there is at least one item |
| `Paging.PageCountOne` | src/App.jsx:275 | with one item per page the page count is the list length, so the testimonials carousel is the paging machine with page size 1 |
| `Paging.SiteConfigurations` | src/App.jsx:581-691 | the site's 8 services make 4 pages, and its 5 testimonials make 5 pages |
| `Paging.NextPage` | src/App.jsx:137-139 | `(prev + 1) % k` stays below k; it is `prev + 1` except on the last page, which wraps to 0 |
| `Paging.PrevPage` | src/App.jsx:141-143 | `(prev - 1 + k) % k` stays below k; it is `prev - 1` except on page 0, which wraps to the last page |
| `Paging.PrevUndoesNext` | src/App.jsx:137-143 | previous after next returns to the starting page |
| `Paging.NextUndoesPrev` | src/App.jsx:137-143 | next after previous returns to the starting page |
| `Paging.AdvanceBy` | src/App.jsx:130-132 | the page after m consecutive next steps or interval firings is a valid page |
| `Paging.AdvanceWithinCycle` | src/App.jsx:137-139 | up to k steps add the step count and wrap at most once past the last page |
| `Paging.AdvanceCompose` | src/App.jsx:130-132 | a steps followed by b steps are a + b steps |
| `Paging.FullCycle` | src/App.jsx:137-139 | k next steps, k being the page count, return to the starting page |
| `Paging.AdvancePeriodic` | src/App.jsx:130-132 | the sequence of pages shown by repeated stepping has period k |
| `Paging.PageSlice` | src/App.jsx:207 | a `slice(i*size, i*size+size)` page holds at most `size` items |
| `Paging.PageSliceShape` | src/App.jsx:207 | every existing page starts at item `i*size`, holds 1 to `size` items, and only the last page can be short |
| `Paging.Pages` | src/App.jsx:207 | the list of pages has an entry at exactly the indices whose `slice` shows at least one item, and its length is the page count |
| `Paging.PageNonEmptyIff` | src/App.jsx:182-207 | a page index is below the page count (has an indicator) exactly when its `slice` is non-empty |
| `Paging.FlattenPrefix` | src/App.jsx:207 | the first j pages together are the first `min(j*size, n)` items, in order |
| `Paging.PagesPartition` | src/App.jsx:207 | the pages, concatenated in page order, are exactly the item list: every item shown once, in order |
| `Paging.ItemOnPage` | src/App.jsx:207 | item x lies on page `x / size`, an existing page, at position `x % size` |
| `Services.ServicesSlider.SlideCount` | src/App.jsx:182 | a non-empty service list has between 1 and n slides |
| `Services.ServicesSlider.constructor` | src/App.jsx:124-135 | mounting starts on slide 0 with auto-play on and one interval installed |
| `Services.ServicesSlider.NextSlide` | src/App.jsx:137-139 | the right arrow moves to the next page with wrap-around, keeps the index valid, and leaves auto-play and the running interval alone |
| `Services.ServicesSlider.PrevSlide` | src/App.jsx:141-143 | the left arrow moves to the previous page with wrap-around, keeps the index valid, and leaves auto-play and the running interval alone |
| `Services.ServicesSlider.JumpTo` | src/App.jsx:182-187 | clicking indicator k sets the slide to exactly k and changes nothing else, the interval countdown included |
| `Services.ServicesSlider.ToggleAutoPlay` | src/App.jsx:173 | the play/pause button flips auto-play and keeps the slide; through the effect at lines 127-135, switching it on installs a fresh interval and switching it off installs none |
| `Services.ServicesSlider.Tick` | src/App.jsx:127-135 | an interval firing takes the next-arrow step when auto-play is on and changes nothing when it is off |
| `Services.ServicesSlider.VisibleServices` | src/App.jsx:207 | the rendered services are items `2i` up to `min(2i+2, n)`: one or two of them, and two on every page but the last |
| `Services.ServicesSlider.Indicators` | src/App.jsx:182-190 | there are `SlideCount()` dots, one for exactly each page index whose `slice` shows at least one service, and exactly the current slide's dot is highlighted |
| `Testimonials.TestimonialsCarousel.constructor` | src/App.jsx:268-279 | mounting starts on testimonial 0 with auto-play on |
| `Testimonials.TestimonialsCarousel.Next` | src/App.jsx:374 | the right arrow moves to the next testimonial modulo the list length and keeps the index valid |
| `Testimonials.TestimonialsCarousel.Prev` | src/App.jsx:351 | the left arrow moves to the previous testimonial modulo the list length and keeps the index valid |
| `Testimonials.TestimonialsCarousel.JumpTo` | src/App.jsx:358-363 | clicking dot k shows testimonial k |
| `Testimonials.TestimonialsCarousel.Tick` | src/App.jsx:271-279 | an interval firing takes the next-arrow step; auto-play stays on, since nothing switches it off |
| `Testimonials.TestimonialsCarousel.Current` | src/App.jsx:301-335 | the rendered testimonial is the whole of page `currentTestimonial` with page size 1 |
| `Testimonials.TestimonialsCarousel.Indicators` | src/App.jsx:358-366 | there is one dot per testimonial, that is one per page, and exactly the current one is highlighted |
| `Counter.DigitsOnly` | src/App.jsx:87 | `replace(/\D/g, '')` yields only decimal digits and is no longer than its input |
| `Counter.DigitsOnlyAppend` | src/App.jsx:87 | deleting non-digits distributes over concatenation |
| `Counter.DigitsOnlyKeepsDigits` | src/App.jsx:87 | a string of digits is left unchanged, so the deletion is idempotent |
| `Counter.DigitsOnlyDropsNonDigit` | src/App.jsx:87 | a non-digit character anywhere in the string contributes nothing |
| `Counter.HasDigitIff` | src/App.jsx:87 | something is left to parse exactly when some character is a digit |
| `Counter.DecimalValue` | src/App.jsx:87 | `parseInt` of a digit string is below `10^len`, and at least `10^(len-1)` when the string has no leading zero |
| `Counter.CounterTarget` | src/App.jsx:87 | `parseInt(end.replace(/\D/g, ''))` is below `10^d` for the d digits of the stat string; written out, it is exactly those digits when they have no leading zero |
| `Counter.DecimalText` | src/App.jsx:117 | the rendered count is a non-empty digit string with no leading zero |
| `Counter.DecimalRoundTrip` | src/App.jsx:87 | parsing the rendered decimal text of a number gives the number back |
| `Counter.LeadingZeroIgnored` | src/App.jsx:87 | a leading zero does not change the parsed value |
| `Counter.TargetIgnoresNonDigit` | src/App.jsx:87 | the counter's target depends only on the digits of the stat string, in order |
| `Counter.TargetOfDigitString` | src/App.jsx:87 | a stat string made only of digits counts up to the number it spells |
| `Counter.StatTarget` | src/App.jsx:87 | a digit run split by one non-digit counts up to the value of the joined digits |
| `Counter.SiteStats` | src/App.jsx:653-658 | the site's stats "500+", "24/7", "99%" and "50+" count up to 500, 247, 99 and 50 |
| `Counter.CounterText` | src/App.jsx:117 | the counter text's digits are the count's decimal digits followed by the suffix's; it contains `+` exactly when the stat string or the suffix does |
| `Counter.PlusIsLast` | src/App.jsx:117 | when the stat string contains `+`, the counter text ends with it |
| `Counter.TargetOfCounterText` | src/App.jsx:117 | reading the counter's own text as a stat string gives back the count |
| `Counter.FinalText` | src/App.jsx:117 | the text the counter settles on has the target's digits and no others |
| `Counter.FinalTextDiffersFromStat` | src/App.jsx:117 | the stat "24/7" ends on screen as "247" and the stat "99%" as "99" |
| `Counter.LeadingDigits` | src/App.jsx:87 | the leading digit run of a string is a prefix of it, made of digits, and followed by a non-digit or the end |
| `Counter.CorrectedCounterText` | src/App.jsx:117 | the corrected text starts with exactly the count as its leading number and keeps everything that follows the stat string's leading number |
| `Counter.LeadingTarget` | src/App.jsx:87 | the corrected target, read from the leading number only, is written out as exactly that number |
| `Counter.CorrectedFinalTextIsStat` | src/App.jsx:117 | with the correction, the counter settles on exactly the stat string |
| `Counter.CorrectionKeepsPlusStats` | src/App.jsx:87-117 | for a stat that is a number followed by `+`, the corrected and the as-written counter agree on target and text |
| `Counter.LeadingDigitsOfPrefix` | src/App.jsx:87 | the leading digit run of a digit string followed by a non-digit is that digit string |
| `Counter.CanonicalRoundTrip` | src/App.jsx:117 | writing out the value of a digit string that has no leading zero gives the string back |
| `Floating.FloatingButtons.constructor` | src/App.jsx:464 | the buttons are hidden at mount |
| `Floating.FloatingButtons.OnScroll` | src/App.jsx:467-473 | after a scroll event, visibility is `ShownAt(offset)`, that is `offset > 300`, whatever it was before |

## Findings

| source | as written | input that shows it | evidently intended | confidence | as-written member | corrected member |
|---|---|---|---|---|---|---|
| src/App.jsx:87-117 | the counter's target keeps every digit of the stat string, and the text puts back only a `+` | the stat "24/7" ends as "247"; the stat "99%" ends as "99" | the counter settles on the stat string itself: it counts up to the leading number and keeps what follows it | high; not executed | `Counter.FinalTextDiffersFromStat` | `Counter.CorrectedFinalTextIsStat` |

The rest of the model keeps the as-written counter (`CounterTarget`, `CounterText`). The
corrected pair `LeadingTarget` and `CorrectedCounterText` stands beside it.
`CorrectionKeepsPlusStats` shows that the two agree on the site's "500+" and "50+" stats.

## Left out

- Rendering: the JSX markup, the framer-motion animation props, the styling and the
  static content arrays are presentation, not logic.
- Real-time scheduling: `setInterval`, `clearInterval` and their 4000 ms and 5000 ms
  periods are not modelled as time. An interval firing is the abstract `Tick` event, and
  the interval's installations are counted in the ghost field `intervalStarts`.
- List-length changes: the `services` and `testimonials` props are constants of the
  model. The effect re-installation that a change of their length would cause is
  therefore not modelled.
- The counter's frame loop: the `requestAnimationFrame` loop and its floating-point
  progress `Math.min((t - start) / duration, 1)` and `Math.floor(progress * endCount)`
  are not modelled. The model states only the target and the text; `FinalText` is the
  text at progress 1. The `useInView` trigger is not modelled either.
- `parseInt` precision: targets above 2^53 lose precision in JavaScript numbers. The
  model reads digit strings as unbounded naturals. A stat string without digits gives
  `NaN`, so `CounterTarget` requires a digit.
- `pageYOffset` is a browser value, modelled as a `real` parameter of `OnScroll`.
- Browser side effects of the floating buttons: scroll-to-top, the WhatsApp and LinkedIn
  `window.open` calls, and the listener registration and removal.
- Other components: the navigation scrolling and the analytics components.
- The mobile menu of `App`: the `isMenuOpen` flag (src/App.jsx:560) that the menu button
  toggles (src/App.jsx:765) and every `smoothScroll` clears (src/App.jsx:573). It only
  shows or hides the navigation links and interacts with none of the modelled widgets.
- `Testimonials.TestimonialsCarousel.Tick`: it states the unconditional next step. The
  `isAutoPlaying` test in its body is always true under the object invariant.
