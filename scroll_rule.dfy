/**
 * The show-on-scroll-up rule shared by the floating navigation bars: a scroll
 * event compares the new vertical offset with the previous one. Up, or near
 * the top (above 100 pixels), shows the bar; down and past 100 pixels hides
 * it; anything else leaves it as it was.
 */
module ScrollRule {
  /** What a scroll event does to the bar's visibility. */
  datatype Verdict = Show | Hide | Keep

  const TopZone: real := 100.0

  /** The rule applied to the new offset `cur` and the previous offset `last`. */
  function Decide(cur: real, last: real): (v: Verdict)
    ensures v == Show <==> cur < last || cur < TopZone
    ensures v == Hide <==> cur > last && cur > TopZone
  {
    if cur < last || cur < TopZone then Show
    else if cur > last && cur > TopZone then Hide
    else Keep
  }

  /** The bar keeps its visibility exactly when the new offset is at least 100 and either equals the previous one or is exactly 100 after a move down. */
  lemma KeepCases(cur: real, last: real)
    ensures Decide(cur, last) == Keep <==> cur >= TopZone && cur >= last && (cur == last || cur == TopZone)
  {
  }

  /** The verdict as the new visibility of a bar that was `visible`. */
  function Apply(v: Verdict, visible: bool): (r: bool)
    ensures v == Show ==> r
    ensures v == Hide ==> !r
    ensures v == Keep ==> r == visible
  {
    match v
    case Show => true
    case Hide => false
    case Keep => visible
  }

  /** Visibility after a run of scroll events starting from offset `last`. */
  function AfterScrolls(visible: bool, last: real, offsets: seq<real>): bool
    decreases |offsets|
  {
    if offsets == [] then visible
    else AfterScrolls(Apply(Decide(offsets[0], last), visible), offsets[0], offsets[1..])
  }

  /** Scrolling back above 100 pixels always brings the bar back, whatever came before. */
  lemma {:induction false} BackToTopShows(visible: bool, last: real, offsets: seq<real>)
    requires offsets != [] && offsets[|offsets| - 1] < TopZone
    ensures AfterScrolls(visible, last, offsets)
    decreases |offsets|
  {
    if |offsets| > 1 {
      BackToTopShows(Apply(Decide(offsets[0], last), visible), offsets[0], offsets[1..]);
    }
  }
}
