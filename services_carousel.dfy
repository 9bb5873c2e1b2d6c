/**
 * The services carousel: the list of services is laid out three times in a
 * row, the scroller starts on the first slide of the middle copy, and after a
 * scroll that has drifted within four slides of either end of the middle
 * copy it jumps by one copy's length, so the same service stays in view and
 * the track seems endless. Scroll positions are counted in whole slides (the
 * pixel width of a slide is not modelled).
 */
module ServicesCarousel {
  import JsLib

  /** `[...services, ...services, ...services]`. */
  function Tripled<T>(services: seq<T>): (r: seq<T>)
    ensures |r| == 3 * |services|
  {
    services + services + services
  }

  /** Slot `i` of the tripled track shows service `i % baseLen`. */
  lemma TripledAt<T>(services: seq<T>, i: int)
    requires 0 <= i < 3 * |services|
    ensures Tripled(services)[i] == services[i % |services|]
  {
    var b := |services|;
    if i < b {
      JsLib.ModUnique(i, b, 0, i);
    } else if i < 2 * b {
      JsLib.ModUnique(i, b, 1, i - b);
    } else {
      JsLib.ModUnique(i, b, 2, i - 2 * b);
    }
  }

  /** The slide measured for the width is the one at `baseLen`: it exists exactly when there are services, and shows the first one. */
  lemma MeasuredSlide<T>(services: seq<T>)
    ensures |services| < |Tripled(services)| <==> |services| > 0
    ensures |services| > 0 ==> Tripled(services)[|services|] == services[0]
  {
  }

  /** The `normalizeIfNeeded` rule on the slide index. */
  function Normalized(index: int, baseLen: nat): int {
    if index < baseLen - 4 then index + baseLen
    else if index >= 2 * baseLen + 4 then index - baseLen
    else index
  }

  /** Normalising moves by at most one copy and keeps the same service in view. */
  lemma NormalizedSameService(index: int, baseLen: nat)
    requires baseLen > 0
    ensures Normalized(index, baseLen) % baseLen == index % baseLen
    ensures Normalized(index, baseLen) - index in {-(baseLen as int), 0, baseLen as int}
  {
    JsLib.ModShift(index, baseLen);
  }

  /**
   * From any slide of the track, normalising lands on a slide of the track
   * within four slides of the middle copy, showing the same service, and a
   * second normalisation changes nothing.
   */
  lemma NormalizedOnTrack<T>(services: seq<T>, index: int)
    requires 0 <= index < 3 * |services|
    ensures var r := Normalized(index, |services|);
            && 0 <= r < 3 * |services|
            && |services| - 4 <= r < 2 * |services| + 4
            && Tripled(services)[r] == Tripled(services)[index]
            && Normalized(r, |services|) == r
  {
    var b := |services|;
    var r := Normalized(index, b);
    NormalizedSameService(index, b);
    TripledAt(services, index);
    TripledAt(services, r);
  }

  /** The scroller: the slide index it is scrolled to and the two arrow buttons. */
  class ServicesCarousel<T> {
    const services: seq<T>
    /** `scrollLeft` divided by the slide width, in whole slides. */
    var index: int
    var canPrev: bool
    var canNext: bool

    /** The scroller shows a slide of the track (the track is empty and unscrolled without services). */
    ghost predicate Valid()
      reads this
    {
      if |services| > 0 then 0 <= index < 3 * |services| else index == 0
    }

    constructor (services: seq<T>)
      ensures this.services == services && index == 0 && canPrev && canNext
      ensures Valid()
    {
      this.services := services;
      index := 0;
      canPrev := true;
      canNext := true;
    }

    /** `init` (on mount and on every resize): jump to the first slide of the middle copy and enable both arrows. */
    method Init()
      modifies this
      ensures index == |services| && canPrev && canNext
      ensures Valid()
      ensures |services| > 0 ==> Tripled(services)[index] == services[0]
    {
      index := |services|;
      canPrev := true;
      canNext := true;
    }

    /** `normalizeIfNeeded` on a scroll event; without services there is no measured slide and nothing happens. */
    method OnScroll()
      requires Valid()
      modifies this
      ensures Valid()
      ensures |services| == 0 ==> index == old(index)
      ensures |services| > 0 ==> index == Normalized(old(index), |services|)
      ensures |services| > 0 ==> Tripled(services)[index] == Tripled(services)[old(index)]
      ensures canPrev == old(canPrev) && canNext == old(canNext)
    {
      if |services| == 0 {
        return;
      }
      NormalizedOnTrack(services, index);
      index := Normalized(index, |services|);
    }

    /** `scrollBySlides`: one slide left or right, the browser keeping the scroller on the track. */
    method ScrollBySlides(right: bool)
      requires Valid()
      modifies this
      ensures Valid()
      ensures |services| == 0 ==> index == old(index)
      ensures |services| > 0 && right ==> index == if old(index) + 1 < 3 * |services| then old(index) + 1 else old(index)
      ensures |services| > 0 && !right ==> index == if old(index) > 0 then old(index) - 1 else 0
      ensures canPrev == old(canPrev) && canNext == old(canNext)
    {
      if |services| == 0 {
        return;
      }
      if right {
        if index + 1 < 3 * |services| {
          index := index + 1;
        }
      } else if index > 0 {
        index := index - 1;
      }
    }

    /** `onKeyDown`: the arrow keys scroll, every other key is ignored. */
    method KeyDown(key: string)
      requires Valid()
      modifies this
      ensures Valid()
      ensures key != "ArrowLeft" && key != "ArrowRight" ==> index == old(index)
      ensures key == "ArrowLeft" ==> index == if |services| > 0 && old(index) > 0 then old(index) - 1 else old(index)
      ensures key == "ArrowRight" ==>
                index == if |services| > 0 && old(index) + 1 < 3 * |services| then old(index) + 1 else old(index)
      ensures canPrev == old(canPrev) && canNext == old(canNext)
    {
      if key == "ArrowLeft" {
        ScrollBySlides(false);
      }
      if key == "ArrowRight" {
        ScrollBySlides(true);
      }
    }
  }

  /** Both arrow buttons are enabled after start-up and stay enabled whatever the user does. */
  method ButtonsAlwaysEnabled<T>(services: seq<T>, keys: seq<string>) returns (c: ServicesCarousel<T>)
    ensures fresh(c) && c.canPrev && c.canNext
    ensures c.Valid()
  {
    c := new ServicesCarousel(services);
    c.Init();
    for i := 0 to |keys|
      invariant c.Valid() && c.canPrev && c.canNext
    {
      c.KeyDown(keys[i]);
      c.OnScroll();
    }
  }
}
