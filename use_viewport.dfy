/**
 * The quantised viewport used by the canvas and shader backgrounds: the real
 * window size is reduced to one of three widths and three heights, so small
 * resizes do not redraw them. Before the first measurement, and where there
 * is no window, the size is the desktop default.
 */
module UseViewport {
  import opened Wrappers

  datatype Dimensions = Dimensions(width: int, height: int)

  /** The size reported before the effect has run. */
  const Initial := Dimensions(1920, 1080)

  /** `updateDimensions`' breakpoints, applied to `window.innerWidth` and `window.innerHeight`. */
  function Quantize(width: int, height: int): (d: Dimensions)
    ensures width <= 768 ==> d == Dimensions(390, 844)
    ensures 768 < width <= 1024 ==> d.width == 1024
    ensures 1024 < width ==> d.width == 1920
    ensures 768 < width ==> d.height == (if height <= 720 then 720 else 1080)
  {
    Dimensions(if width <= 768 then 390 else if width <= 1024 then 1024 else 1920,
               if width <= 768 then 844 else if height <= 720 then 720 else 1080)
  }

  /** The output takes three widths and three heights, and the tall mobile height goes with the mobile width only. */
  lemma QuantizeRange(width: int, height: int)
    ensures Quantize(width, height).width in {390, 1024, 1920}
    ensures Quantize(width, height).height in {844, 720, 1080}
    ensures Quantize(width, height).height == 844 <==> width <= 768
    ensures Quantize(width, height).height == 844 <==> Quantize(width, height).width == 390
  {
  }

  /** A wider window never gets a narrower quantised width. */
  lemma QuantizeMonotone(w1: int, w2: int, h1: int, h2: int)
    requires w1 <= w2
    ensures Quantize(w1, h1).width <= Quantize(w2, h2).width
  {
  }

  /** Quantised sizes are fixed points: measuring a window of a quantised size gives that size back. */
  lemma QuantizeIdempotent(width: int, height: int)
    ensures var d := Quantize(width, height); Quantize(d.width, d.height) == d
  {
  }

  /** One run of `updateDimensions`: without a window the size is left as it was. */
  function Update(current: Dimensions, window: Option<Dimensions>): (d: Dimensions)
    ensures window.None? ==> d == current
    ensures window.Some? ==> d == Quantize(window.value.width, window.value.height)
  {
    match window
    case None => current
    case Some(w) => Quantize(w.width, w.height)
  }

  /** The size after the mount run and then each resize event, in order. */
  function AfterResizes(current: Dimensions, windows: seq<Option<Dimensions>>): Dimensions
    decreases |windows|
  {
    if windows == [] then current else AfterResizes(Update(current, windows[0]), windows[1..])
  }

  /** Starting from the default, the hook only ever reports the default or a quantised size. */
  lemma {:induction false} AlwaysQuantized(current: Dimensions, windows: seq<Option<Dimensions>>)
    requires current == Initial || exists w, h :: current == Quantize(w, h)
    ensures var d := AfterResizes(current, windows); d == Initial || exists w, h :: d == Quantize(w, h)
    decreases |windows|
  {
    if windows != [] {
      var next := Update(current, windows[0]);
      if windows[0].Some? {
        assert next == Quantize(windows[0].value.width, windows[0].value.height);
      }
      AlwaysQuantized(next, windows[1..]);
    }
  }
}
