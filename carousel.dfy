/** The carousel position engine (js/visualisation/carousel.js): a track of
    slides, the index of the first visible slide, the move callbacks that
    keep the navigation arrows and the slide indicator in step with that
    index, and the mobile breakpoint that forces one slide per page. In
    infinite mode the slides are framed by clones of the other end, and
    `ResetInfinite` moves the index back into the real slides once a
    transition has ended on a clone. Slides are opaque values: a clone is a
    copy. */
module Carousel {
  import opened JsSemantics

  /** The constructor's options object. The navigation arrows are only
      hidden when `loop` is exactly `false`, so an absent `loop` (None)
      behaves differently from `Some(false)`; the conflict check reads
      `loop` as a truth value. */
  datatype Options = Options(
    slidesToScroll: int,
    slidesVisible: int,
    loop: Option<bool>,
    slideIndicator: bool,
    infinite: bool)

  /** The window width below which the carousel is in mobile mode. */
  const MobileBreakpoint := 1200

  /** Loop mode and infinite mode cannot be combined. */
  predicate Conflicting(o: Options)
  {
    o.loop == Some(true) && o.infinite
  }

  /** The listeners registered with `onMove`: the arrow hider of
      `createNavigation`, the active-button marker of `createSlideIndicator`,
      and any listener of the carousel's user, told apart by an id. */
  datatype Callback = Navigation | Indicator | Client(id: nat)

  // ---------------------------------------------------------------------------
  // Infinite mode: clones at both ends

  /** The slide list of infinite mode: `slice(length - offset)` of the slides,
      then the slides, then `slice(0, offset)`. */
  function InfiniteSlides<S>(items: seq<S>, offset: int): seq<S>
  {
    SliceFrom(items, |items| - offset) + items + Slice(items, 0, offset)
  }

  /** With at least `offset` slides, the list is the last `offset` slides,
      all the slides, then the first `offset` slides. */
  lemma InfiniteSlidesShape<S>(items: seq<S>, offset: int)
    requires 0 <= offset <= |items|
    ensures var r := InfiniteSlides(items, offset);
            && |r| == |items| + 2 * offset
            && r[..offset] == items[|items| - offset..]
            && r[offset..offset + |items|] == items
            && r[offset + |items|..] == items[..offset]
  {
    var r := InfiniteSlides(items, offset);
    var head := SliceFrom(items, |items| - offset);
    var tail := Slice(items, 0, offset);
    assert head == items[|items| - offset..];
    assert |head| == offset;
    assert r == head + items + tail;
    assert r[..offset] == head;
    assert r[offset..offset + |items|] == items;
    assert r[offset + |items|..] == tail;
  }

  /** Every slide of the extended list equals the slide one real count
      further on, so jumping by that count shows the same picture. */
  lemma InfiniteSlidesClones<S>(items: seq<S>, offset: int, k: int)
    requires 0 <= offset <= |items|
    requires 0 <= k && k + |items| < |InfiniteSlides(items, offset)|
    ensures InfiniteSlides(items, offset)[k] == InfiniteSlides(items, offset)[k + |items|]
  {
    var r := InfiniteSlides(items, offset);
    InfiniteSlidesShape(items, offset);
    var n := |items|;
    if k < offset {
      assert r[k] == r[..offset][k] == items[n - offset + k];
      assert r[k + n] == r[offset..offset + n][k + n - offset] == items[k + n - offset];
    } else {
      assert r[k] == r[offset..offset + n][k - offset] == items[k - offset];
      assert r[k + n] == r[offset + n..][k - offset] == items[k - offset];
    }
  }

  /** With fewer slides than `offset`, the leading slice holds fewer than
      `offset` slides, so the real count `length - 2 * offset` falls below
      the number of slides: nothing guards against this case. */
  lemma InfiniteSlidesShort<S>(items: seq<S>, offset: int)
    requires |items| < offset
    ensures |InfiniteSlides(items, offset)| - 2 * offset < |items|
  {
    var n := |items|;
    assert |SliceFrom(items, n - offset)| == n - SliceIndex(n, n - offset);
    assert |Slice(items, 0, offset)| == n;
  }

  // ---------------------------------------------------------------------------
  // goToItem's redirect policy

  /** Where `goToItem(index)` settles when the first visible slide is
      `current`, the track holds `len` slides and `visible` are shown: a
      negative index goes to the last page, an index past the end, or a
      forward move while the slide after the visible ones is missing, goes
      back to 0, and any other index is kept. */
  function Redirect(index: int, current: int, len: int, visible: int): int
  {
    if index < 0 then len - visible
    else if index > len || (!(0 <= current + visible < len) && index > current) then 0
    else index
  }

  /** A non-negative index is kept exactly when it is 0, or it is at most the
      length and either does not move forward or a slide follows the visible
      ones. */
  lemma RedirectKeeps(index: int, current: int, len: int, visible: int)
    requires 0 <= index
    ensures Redirect(index, current, len, visible) == index <==>
              index == 0 || (index <= len && (index <= current || 0 <= current + visible < len))
  {
  }

  /** The settled index stays on the track when the visible count fits it. */
  lemma RedirectBounds(index: int, current: int, len: int, visible: int)
    requires 0 <= visible <= len
    ensures 0 <= Redirect(index, current, len, visible) <= len
  {
  }

  /** An index equal to the length is not caught by the "past the end" test:
      while a slide follows the visible ones it is kept, one past the last
      slide, whereas one more is sent back to 0. */
  lemma RedirectEndNotCaught(current: int, len: int, visible: int)
    requires 0 <= visible && 0 <= current + visible < len
    ensures Redirect(len, current, len, visible) == len
    ensures Redirect(len + 1, current, len, visible) == 0
  {
  }

  /** `next` from the last page (no slide after the visible ones) goes back
      to the first slide. */
  lemma NextWrapsAtLastPage(current: int, len: int, visible: int, step: int)
    requires 1 <= step && 0 <= current
    requires !(0 <= current + visible < len)
    ensures Redirect(current + step, current, len, visible) == 0
  {
  }

  /** `next` moves by one step while a slide follows the visible ones and
      the step stays within the track. */
  lemma NextAdvances(current: int, len: int, visible: int, step: int)
    requires 1 <= step && 0 <= current
    requires 0 <= current + visible < len && current + step <= len
    ensures Redirect(current + step, current, len, visible) == current + step
  {
  }

  /** `prev` from the first slide goes to the last page. */
  lemma PrevFromFirstSlide(len: int, visible: int, step: int)
    requires 1 <= step
    ensures Redirect(0 - step, 0, len, visible) == len - visible
  {
  }

  // ---------------------------------------------------------------------------
  // resetInfinite

  /** The index `resetInfinite` asks for from `current`, with `count` real
      slides after `offset` clones: one real count forward from the leading
      clones, one back from the trailing clones, none inside the real
      slides. */
  function ResetTarget(current: int, offset: int, count: int): Option<int>
  {
    if current < offset then Some(current + count)
    else if current >= offset + count then Some(current - count)
    else None
  }

  /** From within one real count of the real slides, the reset lands on a
      real slide: the jump is never redirected, provided the visible count
      does not exceed the number of leading clones. */
  lemma {:induction false} ResetLandsInWindow(current: int, offset: int, count: int, visible: int)
    requires 0 < count && 0 <= current && 1 <= visible <= offset
    requires offset - count <= current < offset + 2 * count
    requires ResetTarget(current, offset, count).Some?
    ensures var t := Redirect(ResetTarget(current, offset, count).value, current, count + 2 * offset, visible);
            offset <= t < offset + count
  {
    var len := count + 2 * offset;
    var target := ResetTarget(current, offset, count).value;
    if current < offset {
      assert target == current + count;
      assert 0 <= current + visible < len;
    } else {
      assert target == current - count;
      assert target < current && target <= len;
    }
  }

  /** Inside the real slides the reset asks for nothing. */
  lemma ResetTargetInWindow(current: int, offset: int, count: int)
    ensures ResetTarget(current, offset, count).None? <==> offset <= current < offset + count
  {
  }

  /** Where the index ends once a transition has ended at `current`: kept on
      a real slide, otherwise moved by `resetInfinite` through `goToItem`. */
  function Settle(current: int, offset: int, count: int, visible: int): int
  {
    match ResetTarget(current, offset, count)
    case None => current
    case Some(t) => Redirect(t, current, count + 2 * offset, visible)
  }

  /** The first index of infinite mode: `goToItem(offset)` from 0 is not
      redirected, so the carousel opens on the first real slide, provided
      there are at least `offset` real slides. */
  lemma InfiniteStartsAtOffset(count: int, visible: int, step: int)
    requires 0 <= visible && 1 <= step && visible + step - 1 <= count
    ensures var offset := visible + step - 1;
            Redirect(offset, 0, count + 2 * offset, visible) == offset
  {
  }

  /** `next` from a real slide of the infinite track is never redirected, and
      once the transition ends the index is on a real slide showing the same
      picture: the target itself, or one real count before it when it is a
      trailing clone. The visible count and the step are those of the
      getters (1 and 1 in mobile mode), and the clones must cover them. */
  lemma {:induction false} NextSettlesOnRealSlide(current: int, offset: int, count: int, visible: int, step: int)
    requires 1 <= visible && 1 <= step && visible + step - 1 <= offset && step <= count
    requires offset <= current < offset + count
    ensures Redirect(current + step, current, count + 2 * offset, visible) == current + step
    ensures var s := Settle(current + step, offset, count, visible);
            && offset <= s < offset + count
            && s == if current + step < offset + count then current + step else current + step - count
  {
    var t := current + step;
    if ResetTarget(t, offset, count).Some? {
      ResetLandsInWindow(t, offset, count, visible);
    }
  }

  /** `prev` from a real slide of the infinite track is never redirected, and
      once the transition ends the index is on a real slide showing the same
      picture: the target itself, or one real count after it when it is a
      leading clone. */
  lemma {:induction false} PrevSettlesOnRealSlide(current: int, offset: int, count: int, visible: int, step: int)
    requires 1 <= visible && 1 <= step && visible + step - 1 <= offset && step <= count
    requires offset <= current < offset + count
    ensures Redirect(current - step, current, count + 2 * offset, visible) == current - step
    ensures var s := Settle(current - step, offset, count, visible);
            && offset <= s < offset + count
            && s == if offset <= current - step then current - step else current - step + count
  {
    var t := current - step;
    if ResetTarget(t, offset, count).Some? {
      ResetLandsInWindow(t, offset, count, visible);
    }
  }

  // ---------------------------------------------------------------------------
  // The slide indicator

  /** The targets of the indicator buttons: one button per start position
      `start, start + step, …` up to `maxStart`, each going to its start
      plus `offset`. */
  function IndicatorTargets(start: int, maxStart: int, step: int, offset: int): seq<int>
    requires 1 <= step
    decreases maxStart - start
  {
    if start > maxStart then []
    else [start + offset] + IndicatorTargets(start + step, maxStart, step, offset)
  }

  /** Button k goes to `start + k * step + offset`, and its start is at
      most `maxStart`. */
  lemma {:induction false} IndicatorTargetsSpec(start: int, maxStart: int, step: int, offset: int)
    requires 1 <= step
    ensures var r := IndicatorTargets(start, maxStart, step, offset);
            forall k :: 0 <= k < |r| ==> r[k] == start + k * step + offset && start + k * step <= maxStart
    decreases maxStart - start
  {
    if start <= maxStart {
      var r := IndicatorTargets(start, maxStart, step, offset);
      var rest := IndicatorTargets(start + step, maxStart, step, offset);
      IndicatorTargetsSpec(start + step, maxStart, step, offset);
      assert r == [start + offset] + rest;
      forall k | 1 <= k < |r|
        ensures r[k] == start + k * step + offset && start + k * step <= maxStart
      {
        assert r[k] == rest[k - 1];
        assert start + k * step == start + step + (k - 1) * step;
      }
    }
  }

  /** The start after the last button is past `maxStart`: no button is
      missing. */
  lemma {:induction false} IndicatorTargetsComplete(start: int, maxStart: int, step: int, offset: int)
    requires 1 <= step
    ensures start + |IndicatorTargets(start, maxStart, step, offset)| * step > maxStart
    decreases maxStart - start
  {
    if start <= maxStart {
      var n := |IndicatorTargets(start + step, maxStart, step, offset)|;
      IndicatorTargetsComplete(start + step, maxStart, step, offset);
      assert |IndicatorTargets(start, maxStart, step, offset)| == n + 1;
      assert (n + 1) * step == n * step + step;
    }
  }

  /** The button the indicator marks for an index: the position among the
      `count` real slides, taken with JavaScript's remainder, divided by the
      step and rounded down. With no real slides the remainder is NaN and no
      button is found. */
  function ActiveBucket(index: int, offset: int, count: int, step: int): Option<int>
    requires 1 <= step
  {
    if count == 0 then None else Some(JsRem(index - offset + count, count) / step)
  }

  /** On a real slide the marked button is the one whose page holds it. */
  lemma {:induction false} ActiveBucketInWindow(index: int, offset: int, count: int, step: int)
    requires 1 <= step && 0 < count
    requires offset <= index < offset + count
    ensures ActiveBucket(index, offset, count, step) == Some((index - offset) / step)
  {
    var a := index - offset + count;
    ModOnce(a, count);
    assert JsRem(a, count) == a - count;
  }

  /** Going to the target of button k marks button k. */
  lemma {:induction false} IndicatorClickActivates(k: nat, offset: int, count: int, step: int)
    requires 1 <= step && k * step < count
    ensures ActiveBucket(k * step + offset, offset, count, step) == Some(k)
  {
    var a := k * step;
    ActiveBucketInWindow(a + offset, offset, count, step);
    DivExact(k, step);
  }

  /** A multiple of the step divided by the step gives the multiplier back. */
  lemma {:induction false} DivExact(k: nat, step: int)
    requires 1 <= step
    ensures (k * step) / step == k
  {
    var a := k * step;
    var q := a / step;
    assert q * step <= a < q * step + step;
    if q < k {
      MulAtLeast(k - q, step);
    } else if q > k {
      MulAtLeast(q - k, step);
    }
  }

  lemma {:induction false} MulAtLeast(x: int, y: int)
    requires 1 <= x && 1 <= y
    ensures y <= x * y
    decreases x
  {
    if x > 1 {
      MulAtLeast(x - 1, y);
      assert x * y == (x - 1) * y + y;
    }
  }

  /** The active flags after marking button b of n: b alone. */
  function OneHot(n: nat, b: int): (r: seq<bool>)
    ensures |r| == n
  {
    seq(n, j => j == b)
  }

  /** Marking a button that exists leaves exactly that button active. */
  lemma ExactlyOneActive(n: nat, b: int)
    requires 0 <= b < n
    ensures (set j | 0 <= j < n && OneHot(n, b)[j]) == {b}
  {
  }

  // ---------------------------------------------------------------------------
  // The move callbacks

  /** What the callbacks read from the carousel while they run: the track
      length, the current index, the visible count as the getter gives it,
      the number of leading clones, the configured step and the number of
      indicator buttons. */
  datatype Context = Context(slideCount: int, currentItem: int, visible: int, offset: int, step: int, buttons: nat)

  /** What the callbacks change: the hidden state of both arrows, the active
      flag of each indicator button, and the log of every call made. */
  datatype View = View(prevHidden: bool, nextHidden: bool, active: seq<bool>, calls: seq<(Callback, int)>)

  /** One callback called with `index`. The arrow hider hides "prev" at
      index 0 and "next" when no slide follows the visible ones; the
      indicator marks the button of the index when there is one. */
  function Invoke(v: View, cb: Callback, index: int, c: Context): View
    requires 1 <= c.step
  {
    var called := v.(calls := v.calls + [(cb, index)]);
    match cb
    case Navigation =>
      called.(prevHidden := index == 0, nextHidden := !(0 <= c.currentItem + c.visible < c.slideCount))
    case Indicator =>
      var b := ActiveBucket(index, c.offset, c.slideCount - 2 * c.offset, c.step);
      if b.Some? && 0 <= b.value < c.buttons then called.(active := OneHot(c.buttons, b.value)) else called
    case Client(_) => called
  }

  /** The registered callbacks called in order with `index`. */
  function InvokeAll(v: View, cbs: seq<Callback>, index: int, c: Context): View
    requires 1 <= c.step
    decreases |cbs|
  {
    if cbs == [] then v
    else Invoke(InvokeAll(v, cbs[..|cbs| - 1], index, c), cbs[|cbs| - 1], index, c)
  }

  /** Every registered callback is called exactly once, in registration
      order, with the index. */
  lemma {:induction false} InvokeAllCalls(v: View, cbs: seq<Callback>, index: int, c: Context)
    requires 1 <= c.step
    ensures InvokeAll(v, cbs, index, c).calls ==
              v.calls + seq(|cbs|, k requires 0 <= k < |cbs| => (cbs[k], index))
    decreases |cbs|
  {
    if cbs != [] {
      var init := cbs[..|cbs| - 1];
      InvokeAllCalls(v, init, index, c);
      assert seq(|cbs|, k requires 0 <= k < |cbs| => (cbs[k], index)) ==
             seq(|init|, k requires 0 <= k < |init| => (init[k], index)) + [(cbs[|cbs| - 1], index)];
    }
  }

  /** With the arrow hider registered the arrows follow the index, and
      without it they are left as they were. */
  lemma {:induction false} InvokeAllNavigation(v: View, cbs: seq<Callback>, index: int, c: Context)
    requires 1 <= c.step
    ensures var r := InvokeAll(v, cbs, index, c);
            if Navigation in cbs
            then r.prevHidden == (index == 0) && r.nextHidden == !(0 <= c.currentItem + c.visible < c.slideCount)
            else r.prevHidden == v.prevHidden && r.nextHidden == v.nextHidden
    decreases |cbs|
  {
    if cbs != [] {
      var init := cbs[..|cbs| - 1];
      InvokeAllNavigation(v, init, index, c);
      assert cbs == init + [cbs[|cbs| - 1]];
      assert Navigation in cbs <==> Navigation in init || cbs[|cbs| - 1] == Navigation;
    }
  }

  /** With the indicator registered and a button for the index, that button
      alone is active; otherwise the active flags are left as they were. */
  lemma {:induction false} InvokeAllIndicator(v: View, cbs: seq<Callback>, index: int, c: Context)
    requires 1 <= c.step
    ensures var r := InvokeAll(v, cbs, index, c);
            var b := ActiveBucket(index, c.offset, c.slideCount - 2 * c.offset, c.step);
            if Indicator in cbs && b.Some? && 0 <= b.value < c.buttons
            then r.active == OneHot(c.buttons, b.value)
            else r.active == v.active
    decreases |cbs|
  {
    if cbs != [] {
      var init := cbs[..|cbs| - 1];
      InvokeAllIndicator(v, init, index, c);
      assert cbs == init + [cbs[|cbs| - 1]];
      assert Indicator in cbs <==> Indicator in init || cbs[|cbs| - 1] == Indicator;
    }
  }

  // ---------------------------------------------------------------------------
  // The carousel object

  class Carousel<S> {
    const options: Options
    /** The track: the slides, framed by clones in infinite mode. */
    const slides: seq<S>
    /** The number of clones on each side (0 outside infinite mode). */
    const offset: int
    /** The index of the first visible slide. */
    var currentItem: int
    var isMobile: bool
    var moveCallBacks: seq<Callback>
    /** The index each indicator button goes to. */
    var indicatorTargets: seq<int>
    /** Whether each indicator button is marked active. */
    var active: seq<bool>
    /** Whether the indicator buttons carry the "hidden" class. */
    var indicatorsHidden: bool
    var prevHidden: bool
    var nextHidden: bool
    /** Every callback call made so far, with its index. */
    var calls: seq<(Callback, int)>

    ghost predicate Valid()
      reads this
    {
      1 <= options.slidesToScroll && |active| == |indicatorTargets|
    }

    /** The `slidesToScroll` getter. */
    function SlidesToScroll(): (r: int)
      reads this
      ensures isMobile ==> r == 1
      ensures !isMobile ==> r == options.slidesToScroll
    {
      if isMobile then 1 else options.slidesToScroll
    }

    /** The `slidesVisible` getter. */
    function SlidesVisible(): (r: int)
      reads this
      ensures isMobile ==> r == 1
      ensures !isMobile ==> r == options.slidesVisible
    {
      if isMobile then 1 else options.slidesVisible
    }

    /** The number of real slides, without the clones. */
    function RealCount(): int
      reads this
    {
      |slides| - 2 * offset
    }

    function Ctx(): Context
      reads this
    {
      Context(|slides|, currentItem, SlidesVisible(), offset, options.slidesToScroll, |indicatorTargets|)
    }

    function Snapshot(): View
      reads this
    {
      View(prevHidden, nextHidden, active, calls)
    }

    /** Everything but the callbacks' view is as it was. */
    twostate predicate Settled()
      reads this
    {
      && currentItem == old(currentItem) && isMobile == old(isMobile)
      && moveCallBacks == old(moveCallBacks) && indicatorTargets == old(indicatorTargets)
      && indicatorsHidden == old(indicatorsHidden)
    }

    /** The state right after construction from `items`, `o` and the window
        width: the track and clones, the registered callbacks, the indicator
        buttons, the initial index, and the callbacks fired once with it
        (and once more in mobile mode, by the resize handler). */
    ghost predicate Initialised(items: seq<S>, o: Options, width: int)
      reads this
    {
      1 <= o.slidesToScroll &&
      var off := if o.infinite then o.slidesVisible + o.slidesToScroll - 1 else 0;
      var track := if o.infinite then InfiniteSlides(items, off) else items;
      var cbs := (if o.loop == Some(false) then [Navigation] else []) + (if o.slideIndicator then [Indicator] else []);
      var first := if o.infinite then Redirect(off, 0, |track|, o.slidesVisible) else 0;
      var targets := if o.slideIndicator then IndicatorTargets(0, |track| - 2 * off - o.slidesVisible, o.slidesToScroll, off) else [];
      var desktop := Context(|track|, first, o.slidesVisible, off, o.slidesToScroll, |targets|);
      var shown := InvokeAll(View(false, false, seq(|targets|, _ => false), []), cbs, first, desktop);
      && options == o && offset == off && slides == track
      && moveCallBacks == cbs && indicatorTargets == targets
      && currentItem == first && isMobile == (width < MobileBreakpoint)
      && indicatorsHidden == isMobile
      && Snapshot() == (if isMobile then InvokeAll(shown, cbs, first, desktop.(visible := 1)) else shown)
    }

    /** The constructor, once the loop/infinite conflict is ruled out. */
    constructor (items: seq<S>, o: Options, width: int)
      requires 1 <= o.slidesToScroll && !Conflicting(o)
      ensures Valid() && Initialised(items, o, width)
      ensures o.infinite && 0 <= o.slidesVisible && o.slidesVisible + o.slidesToScroll - 1 <= |items| ==>
                RealCount() == |items| && currentItem == offset
    {
      var off := if o.infinite then o.slidesVisible + o.slidesToScroll - 1 else 0;
      options := o;
      offset := off;
      slides := if o.infinite then InfiniteSlides(items, off) else items;
      currentItem := 0;
      isMobile := false;
      moveCallBacks := [];
      indicatorTargets := [];
      active := [];
      indicatorsHidden := false;
      prevHidden := false;
      nextHidden := false;
      calls := [];
      new;
      if o.infinite {
        OpenOnFirstRealSlide(items);
      }
      ghost var first := currentItem;
      assert Snapshot() == View(false, false, [], []);
      if o.loop == Some(false) {
        OnMove(Navigation);
      }
      if o.slideIndicator {
        CreateSlideIndicator();
      }
      ghost var cbs := (if o.loop == Some(false) then [Navigation] else []) + (if o.slideIndicator then [Indicator] else []);
      ghost var targets := if o.slideIndicator then IndicatorTargets(0, |slides| - 2 * off - o.slidesVisible, o.slidesToScroll, off) else [];
      assert moveCallBacks == cbs && indicatorTargets == targets;
      assert Snapshot() == View(false, false, seq(|targets|, _ => false), []);
      ghost var desktop := Ctx();
      assert desktop == Context(|slides|, first, o.slidesVisible, off, o.slidesToScroll, |targets|);
      FireMoveCallbacks(currentItem);
      ghost var shown := Snapshot();
      OnWindowResize(width);
      assert isMobile ==> Ctx() == desktop.(visible := 1);
      assert currentItem == first;
    }

    /** The constructor's `goToItem(offset)` in infinite mode, made before
        any callback is registered: it opens on the first real slide when
        there are at least `offset` real slides. */
    method OpenOnFirstRealSlide(ghost items: seq<S>)
      requires Valid() && options.infinite && !isMobile
      requires offset == options.slidesVisible + options.slidesToScroll - 1
      requires slides == InfiniteSlides(items, offset)
      requires currentItem == 0 && moveCallBacks == []
      modifies this
      ensures Valid() && isMobile == old(isMobile) && moveCallBacks == old(moveCallBacks)
      ensures indicatorTargets == old(indicatorTargets) && indicatorsHidden == old(indicatorsHidden)
      ensures Snapshot() == old(Snapshot())
      ensures currentItem == Redirect(offset, 0, |slides|, options.slidesVisible)
      ensures 0 <= options.slidesVisible && offset <= |items| ==> RealCount() == |items| && currentItem == offset
    {
      if 0 <= options.slidesVisible && offset <= |items| {
        InfiniteSlidesShape(items, offset);
        InfiniteStartsAtOffset(|items|, options.slidesVisible, options.slidesToScroll);
      }
      GoToItem(offset);
      assert InvokeAll(old(Snapshot()), [], currentItem, Ctx()) == old(Snapshot());
    }

    /** `onMove`: registers a callback after the others. */
    method OnMove(cb: Callback)
      modifies this
      ensures moveCallBacks == old(moveCallBacks) + [cb]
      ensures currentItem == old(currentItem) && isMobile == old(isMobile)
      ensures indicatorTargets == old(indicatorTargets) && indicatorsHidden == old(indicatorsHidden)
      ensures Snapshot() == old(Snapshot())
    {
      moveCallBacks := moveCallBacks + [cb];
    }

    /** One callback called with `index`. */
    method Notify(cb: Callback, index: int)
      requires Valid()
      modifies this
      ensures Valid() && Settled()
      ensures Snapshot() == Invoke(old(Snapshot()), cb, index, Ctx())
    {
      calls := calls + [(cb, index)];
      match cb {
        case Navigation =>
          prevHidden := index == 0;
          nextHidden := !(0 <= currentItem + SlidesVisible() < |slides|);
        case Indicator =>
          var b := ActiveBucket(index, offset, RealCount(), options.slidesToScroll);
          if b.Some? && 0 <= b.value < |indicatorTargets| {
            active := OneHot(|indicatorTargets|, b.value);
          }
        case Client(_) =>
      }
    }

    /** `moveCallBacks.forEach(callBack => callBack(index))`. */
    method FireMoveCallbacks(index: int)
      requires Valid()
      modifies this
      ensures Valid() && Settled()
      ensures Snapshot() == InvokeAll(old(Snapshot()), moveCallBacks, index, Ctx())
    {
      var i := 0;
      while i < |moveCallBacks|
        invariant 0 <= i <= |moveCallBacks|
        invariant Valid() && Settled()
        invariant Snapshot() == InvokeAll(old(Snapshot()), moveCallBacks[..i], index, Ctx())
      {
        Notify(moveCallBacks[i], index);
        assert moveCallBacks[..i + 1][..i] == moveCallBacks[..i];
        i := i + 1;
      }
      assert moveCallBacks[..i] == moveCallBacks;
    }

    /** `goToItem`: settles on the redirected index, decided from the index
        before the move, then calls every callback with it. */
    method GoToItem(index: int)
      requires Valid()
      modifies this
      ensures Valid()
      ensures currentItem == Redirect(index, old(currentItem), |slides|, old(SlidesVisible()))
      ensures isMobile == old(isMobile) && moveCallBacks == old(moveCallBacks)
      ensures indicatorTargets == old(indicatorTargets) && indicatorsHidden == old(indicatorsHidden)
      ensures Snapshot() == InvokeAll(old(Snapshot()), moveCallBacks, currentItem, Ctx())
    {
      var target := Redirect(index, currentItem, |slides|, SlidesVisible());
      currentItem := target;
      FireMoveCallbacks(target);
    }

    /** `next`: one step forward, as the getter gives it. */
    method Next()
      requires Valid()
      modifies this
      ensures Valid()
      ensures currentItem == Redirect(old(currentItem) + old(SlidesToScroll()), old(currentItem), |slides|, old(SlidesVisible()))
      ensures isMobile == old(isMobile) && moveCallBacks == old(moveCallBacks)
      ensures indicatorTargets == old(indicatorTargets) && indicatorsHidden == old(indicatorsHidden)
      ensures Snapshot() == InvokeAll(old(Snapshot()), moveCallBacks, currentItem, Ctx())
    {
      GoToItem(currentItem + SlidesToScroll());
    }

    /** `prev`: one step back, as the getter gives it. */
    method Prev()
      requires Valid()
      modifies this
      ensures Valid()
      ensures currentItem == Redirect(old(currentItem) - old(SlidesToScroll()), old(currentItem), |slides|, old(SlidesVisible()))
      ensures isMobile == old(isMobile) && moveCallBacks == old(moveCallBacks)
      ensures indicatorTargets == old(indicatorTargets) && indicatorsHidden == old(indicatorsHidden)
      ensures Snapshot() == InvokeAll(old(Snapshot()), moveCallBacks, currentItem, Ctx())
    {
      GoToItem(currentItem - SlidesToScroll());
    }

    /** `resetInfinite`: from a clone, jumps one real count into the real
        slides (through `goToItem`); on a real slide it does nothing. */
    method ResetInfinite()
      requires Valid() && options.infinite
      modifies this
      ensures Valid()
      ensures currentItem == Settle(old(currentItem), offset, RealCount(), old(SlidesVisible()))
      ensures isMobile == old(isMobile) && moveCallBacks == old(moveCallBacks)
      ensures indicatorTargets == old(indicatorTargets) && indicatorsHidden == old(indicatorsHidden)
      ensures match ResetTarget(old(currentItem), offset, RealCount())
              case None => currentItem == old(currentItem) && Snapshot() == old(Snapshot())
              case Some(t) =>
                && currentItem == Redirect(t, old(currentItem), |slides|, old(SlidesVisible()))
                && Snapshot() == InvokeAll(old(Snapshot()), moveCallBacks, currentItem, Ctx())
    {
      var count := RealCount();
      if currentItem < offset {
        GoToItem(currentItem + count);
      } else if currentItem >= offset + count {
        GoToItem(currentItem - count);
      }
    }

    /** `createSlideIndicator`: one button per step of the configured
        `slidesToScroll` from 0 up to the last start showing a full page of
        real slides, each going to its start plus the clone offset, and the
        active-button marker registered as a callback. */
    method CreateSlideIndicator()
      requires Valid()
      modifies this
      ensures Valid()
      ensures indicatorTargets == old(indicatorTargets) +
                IndicatorTargets(0, RealCount() - options.slidesVisible, options.slidesToScroll, offset)
      ensures active == old(active) + seq(|indicatorTargets| - |old(indicatorTargets)|, _ => false)
      ensures moveCallBacks == old(moveCallBacks) + [Indicator]
      ensures currentItem == old(currentItem) && isMobile == old(isMobile)
      ensures indicatorsHidden == old(indicatorsHidden)
      ensures prevHidden == old(prevHidden) && nextHidden == old(nextHidden) && calls == old(calls)
    {
      var maxStart := RealCount() - options.slidesVisible;
      var step := options.slidesToScroll;
      var targets: seq<int> := [];
      var i := 0;
      while i <= maxStart
        invariant targets + IndicatorTargets(i, maxStart, step, offset) == IndicatorTargets(0, maxStart, step, offset)
        decreases maxStart - i
      {
        var later := IndicatorTargets(i + step, maxStart, step, offset);
        assert IndicatorTargets(i, maxStart, step, offset) == [i + offset] + later;
        assert targets + ([i + offset] + later) == (targets + [i + offset]) + later;
        targets := targets + [i + offset];
        i := i + step;
      }
      assert IndicatorTargets(i, maxStart, step, offset) == [];
      indicatorTargets := indicatorTargets + targets;
      active := active + seq(|targets|, _ => false);
      OnMove(Indicator);
    }

    /** `onWindowResize`: acts only when the mobile flag flips, firing every
        callback once more with the current index and hiding the indicator
        buttons in mobile mode. */
    method OnWindowResize(width: int)
      requires Valid()
      modifies this
      ensures Valid()
      ensures isMobile == (width < MobileBreakpoint)
      ensures currentItem == old(currentItem) && moveCallBacks == old(moveCallBacks)
      ensures indicatorTargets == old(indicatorTargets)
      ensures old(isMobile) == isMobile ==>
                Snapshot() == old(Snapshot()) && indicatorsHidden == old(indicatorsHidden)
      ensures old(isMobile) != isMobile ==>
                && Snapshot() == InvokeAll(old(Snapshot()), moveCallBacks, currentItem, Ctx())
                && indicatorsHidden == isMobile
    {
      var mobile := width < MobileBreakpoint;
      if isMobile != mobile {
        isMobile := mobile;
        FireMoveCallbacks(currentItem);
        indicatorsHidden := isMobile;
      }
    }
  }

  /** `new Carousel(slides, options)`: throws when loop and infinite mode
      are both on, before any state is built; otherwise builds the carousel. */
  method Create<S>(items: seq<S>, o: Options, width: int) returns (r: Result<Carousel<S>>)
    requires 1 <= o.slidesToScroll
    ensures r.Err? <==> Conflicting(o)
    ensures r.Ok? ==> fresh(r.value) && r.value.Valid() && r.value.Initialised(items, o, width)
  {
    if Conflicting(o) {
      return Err("a carousel can't be in loop mode and in infinite mode at the same time");
    }
    var c := new Carousel(items, o, width);
    return Ok(c);
  }
}
