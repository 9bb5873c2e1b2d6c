/**
 * The blog's inline carousel: its children are rendered twice in a row so the
 * track can loop, and one index into that doubled track says which slot is in
 * focus. An autoplay interval, a click on a slot and a horizontal swipe move
 * the index, always modulo twice the number of items. JavaScript numbers are
 * modelled as integers plus `NaN`, the value `x % 0` takes when there are no
 * items.
 */
module Carousel {
  import opened Wrappers
  import JsLib

  /** A JavaScript number as far as the index can go: an integer, or `NaN`. */
  datatype Num = Finite(n: int) | NaN

  /** `a + d`; `NaN` stays `NaN`. */
  function Plus(a: Num, d: int): (r: Num)
    ensures a.NaN? <==> r.NaN?
  {
    match a
    case Finite(n) => Finite(n + d)
    case NaN => NaN
  }

  /** JavaScript `a % m`: the remainder truncated toward zero, `NaN` for `m == 0` or a `NaN` operand. */
  function Rem(a: Num, m: nat): (r: Num)
    ensures m == 0 || a.NaN? ==> r == NaN
    ensures m > 0 && a.Finite? ==> r.Finite? && -(m as int) < r.n < m
    ensures m > 0 && a.Finite? && a.n >= 0 ==> r == Finite(a.n % m)
  {
    if m == 0 || a.NaN? then NaN else Finite(JsLib.JsRem(a.n, m))
  }

  /** `idx` names a slot of a doubled track of `total` items. */
  predicate InRange(idx: Num, total: nat) {
    idx.Finite? && 0 <= idx.n < 2 * total
  }

  /** The autoplay step `(prev + 1) % (total * 2)`. */
  function Next(idx: Num, total: nat): (r: Num)
    ensures InRange(idx, total) ==> InRange(r, total)
  {
    Rem(Plus(idx, 1), 2 * total)
  }

  /** Autoplay moves to the next slot, wrapping from the last to the first. */
  lemma NextStep(idx: Num, total: nat)
    requires InRange(idx, total)
    ensures Next(idx, total).n == (if idx.n == 2 * total - 1 then 0 else idx.n + 1)
  {
    JsLib.ModRange(idx.n + 1, 2 * total);
  }

  /** The swipe step `(prev + (forward ? 1 : -1) + total * 2) % (total * 2)`; `NaN` when there are no items. */
  function Swiped(idx: Num, total: nat, forward: bool): (r: Num)
    ensures total == 0 ==> r == NaN
    ensures InRange(idx, total) ==> InRange(r, total)
  {
    Rem(Plus(idx, (if forward then 1 else -1) + 2 * total), 2 * total)
  }

  /** A swipe moves one slot on or back, wrapping at both ends; on is the autoplay step. */
  lemma SwipeStep(idx: Num, total: nat, forward: bool)
    requires InRange(idx, total)
    ensures forward ==> Swiped(idx, total, forward) == Next(idx, total)
    ensures !forward ==> Swiped(idx, total, forward).n == (if idx.n == 0 then 2 * total - 1 else idx.n - 1)
  {
    var m := 2 * total;
    if forward {
      JsLib.ModShift(idx.n + 1, m);
    } else {
      JsLib.ModRange(idx.n - 1 + m, m);
    }
  }

  /** A swipe back undoes a swipe on, and the other way round. */
  lemma SwipeUndo(idx: Num, total: nat)
    requires InRange(idx, total)
    ensures Swiped(Swiped(idx, total, true), total, false) == idx
    ensures Swiped(Swiped(idx, total, false), total, true) == idx
  {
    SwipeStep(idx, total, true);
    NextStep(idx, total);
    SwipeStep(Swiped(idx, total, true), total, false);
    SwipeStep(idx, total, false);
    SwipeStep(Swiped(idx, total, false), total, true);
    NextStep(Swiped(idx, total, false), total);
  }

  /** The index after `k` autoplay steps. */
  function NextN(idx: Num, total: nat, k: nat): Num {
    if k == 0 then idx else Next(NextN(idx, total, k - 1), total)
  }

  /** After `k` autoplay steps the index has moved `k` slots round the doubled track. */
  lemma {:induction false} NextNMoves(idx: Num, total: nat, k: nat)
    requires InRange(idx, total)
    ensures NextN(idx, total, k) == Finite((idx.n + k) % (2 * total))
  {
    if k > 0 {
      NextNMoves(idx, total, k - 1);
      var m := 2 * total;
      var a: nat := idx.n + k - 1;
      var prev := a % m;
      assert NextN(idx, total, k) == Next(Finite(prev), total);
      NextStep(Finite(prev), total);
      JsLib.ModSucc(a, m);
      assert a + 1 == idx.n + k;
    } else {
      JsLib.ModRange(idx.n, 2 * total);
    }
  }

  /** A full round of `2 * total` autoplay steps comes back to the same slot. */
  lemma AutoplayPeriod(idx: Num, total: nat)
    requires InRange(idx, total)
    ensures NextN(idx, total, 2 * total) == idx
  {
    NextNMoves(idx, total, 2 * total);
    var m := 2 * total;
    JsLib.ModShift(idx.n, m);
    JsLib.ModRange(idx.n, m);
  }

  /** The rendered track: the items twice over, so slot `j` shows item `j % total`. */
  function Track<T>(items: seq<T>): (r: seq<T>)
    ensures |r| == 2 * |items|
    ensures forall j :: 0 <= j < |items| ==> r[j] == items[j] && r[j + |items|] == items[j]
  {
    items + items
  }

  /** Slot `j` of the track shows item `j % total`. */
  lemma TrackSlot<T>(items: seq<T>, j: int)
    requires 0 <= j < 2 * |items|
    ensures Track(items)[j] == items[j % |items|]
  {
    JsLib.ModRange(j, |items|);
  }

  /**
   * The click handler of the item at `index` on pass `pass` (0 or 1) is given
   * `index + total * pass`, the position of that very slot: the click brings
   * that slot into focus, and it shows that item.
   */
  lemma ClickedSlot<T>(items: seq<T>, pass: int, index: int)
    requires pass == 0 || pass == 1
    requires 0 <= index < |items|
    ensures var j := index + |items| * pass;
            && Rem(Finite(j), 2 * |items|) == Finite(j)
            && InRange(Finite(j), |items|)
            && Track(items)[j] == items[index]
  {
    var j := index + |items| * pass;
    assert j == if pass == 0 then index else index + |items|;
    JsLib.ModRange(j, 2 * |items|);
  }

  /** `Math.abs(deltaX) > 50`: the finger has moved far enough to count as a swipe. */
  predicate Fires(deltaX: real) {
    deltaX > 50.0 || deltaX < -50.0
  }

  /** A `touchmove` listener that started at `start` stays registered after a move to `x` exactly when it did not fire. */
  function Stays(x: real): real -> bool {
    start => !Fires(start - x)
  }

  /** The effect of one `touchmove` listener, started at `start`, on a move to `x`. */
  function ListenerStep(idx: Num, total: nat, start: real, x: real): Num {
    if Fires(start - x) then Swiped(idx, total, start - x > 0.0) else idx
  }

  /** The index after every registered listener, oldest first, has seen a move to `x`. */
  function AfterMove(idx: Num, total: nat, starts: seq<real>, x: real): Num
    decreases |starts|
  {
    if starts == [] then idx else AfterMove(ListenerStep(idx, total, starts[0], x), total, starts[1..], x)
  }

  /** The listeners from `i` on, the one at `i` unfolded. */
  lemma AfterMoveFrom(idx: Num, total: nat, starts: seq<real>, i: nat, x: real)
    requires i < |starts|
    ensures AfterMove(idx, total, starts[i..], x)
            == AfterMove(ListenerStep(idx, total, starts[i], x), total, starts[i + 1..], x)
  {
    assert starts[i..][1..] == starts[i + 1..];
  }

  /** The index may take: a slot of the doubled track, or, with no items, the start value or `NaN`. */
  predicate IndexOk(idx: Num, total: nat) {
    if total > 0 then InRange(idx, total) else idx == Finite(0) || idx == NaN
  }

  /** One listener's step keeps the index where it may be. */
  lemma ListenerStepOk(idx: Num, total: nat, start: real, x: real)
    requires IndexOk(idx, total)
    ensures IndexOk(ListenerStep(idx, total, start, x), total)
  {
  }

  /** Every listener's step keeps the index where it may be. */
  lemma {:induction false} AfterMoveOk(idx: Num, total: nat, starts: seq<real>, x: real)
    requires IndexOk(idx, total)
    ensures IndexOk(AfterMove(idx, total, starts, x), total)
    decreases |starts|
  {
    if starts != [] {
      ListenerStepOk(idx, total, starts[0], x);
      AfterMoveOk(ListenerStep(idx, total, starts[0], x), total, starts[1..], x);
    }
  }

  /** The carousel's state: the focused slot and the `touchmove` listeners currently registered. */
  class Carousel<T> {
    const items: seq<T>
    var currentIndex: Num
    /** The starting x coordinate of each registered `touchmove` listener, oldest first. */
    var moveListeners: seq<real>

    ghost predicate Valid()
      reads this
    {
      IndexOk(currentIndex, |items|)
    }

    constructor (children: seq<T>)
      ensures items == children && currentIndex == Finite(0) && moveListeners == []
      ensures Valid()
    {
      items := children;
      currentIndex := Finite(0);
      moveListeners := [];
    }

    /** One autoplay interval; with no items no interval was started and nothing happens. */
    method AutoplayTick()
      requires Valid()
      modifies this
      ensures Valid()
      ensures |items| == 0 ==> currentIndex == old(currentIndex)
      ensures |items| > 0 ==> currentIndex == Next(old(currentIndex), |items|)
      ensures moveListeners == old(moveListeners)
    {
      if |items| > 0 {
        currentIndex := Next(currentIndex, |items|);
      }
    }

    /** `handleImageClick(index)`: focus `index % (total * 2)`. */
    method HandleImageClick(index: int)
      requires Valid()
      modifies this
      ensures currentIndex == Rem(Finite(index), 2 * |items|)
      ensures index >= 0 ==> Valid()
      ensures moveListeners == old(moveListeners)
    {
      currentIndex := Rem(Finite(index), 2 * |items|);
    }

    /** `touchstart`: registers one more `touchmove` listener remembering where the first touch began (0 without one). */
    method TouchStart(firstTouchX: Option<real>)
      modifies this
      ensures moveListeners == old(moveListeners) + [firstTouchX.GetOr(0.0)]
      ensures currentIndex == old(currentIndex)
    {
      moveListeners := moveListeners + [firstTouchX.GetOr(0.0)];
    }

    /**
     * `touchmove`: every registered listener, oldest first, compares its start
     * with the current touch; one that has moved more than 50 pixels swipes the
     * index and unregisters, so each gesture swipes at most once.
     */
    method TouchMove(touchX: Option<real>)
      requires Valid()
      modifies this
      ensures Valid()
      ensures currentIndex == AfterMove(old(currentIndex), |items|, old(moveListeners), touchX.GetOr(0.0))
      ensures moveListeners == JsLib.Filter(old(moveListeners), Stays(touchX.GetOr(0.0)))
    {
      var x := touchX.GetOr(0.0);
      var starts := moveListeners;
      var kept: seq<real> := [];
      ghost var start := currentIndex;
      for i := 0 to |starts|
        invariant AfterMove(currentIndex, |items|, starts[i..], x) == AfterMove(start, |items|, starts, x)
        invariant kept + JsLib.Filter(starts[i..], Stays(x)) == JsLib.Filter(starts, Stays(x))
        invariant IndexOk(currentIndex, |items|)
      {
        ghost var before := currentIndex;
        ghost var keptBefore := kept;
        AfterMoveFrom(currentIndex, |items|, starts, i, x);
        JsLib.FilterStep(kept, starts, i, Stays(x));
        ListenerStepOk(currentIndex, |items|, starts[i], x);
        var deltaX := starts[i] - x;
        assert Stays(x)(starts[i]) == !Fires(deltaX);
        if Fires(deltaX) {
          currentIndex := Swiped(currentIndex, |items|, deltaX > 0.0);
        } else {
          kept := kept + [starts[i]];
        }
        assert currentIndex == ListenerStep(before, |items|, starts[i], x);
        assert kept == keptBefore + (if Stays(x)(starts[i]) then [starts[i]] else []);
      }
      assert starts[|starts|..] == [];
      moveListeners := kept;
    }

    /** `touchend`: the once-only end listeners unregister every pending `touchmove` listener. */
    method TouchEnd()
      modifies this
      ensures moveListeners == []
      ensures currentIndex == old(currentIndex)
    {
      moveListeners := [];
    }
  }

  /** A swipe gesture with one listener: past the threshold it moves the index one slot and is spent. */
  lemma SingleSwipe(idx: Num, total: nat, start: real, x: real)
    requires total > 0 && InRange(idx, total)
    ensures Fires(start - x) ==> AfterMove(idx, total, [start], x) == Swiped(idx, total, start - x > 0.0)
                                 && JsLib.Filter([start], Stays(x)) == []
    ensures !Fires(start - x) ==> AfterMove(idx, total, [start], x) == idx
                                  && JsLib.Filter([start], Stays(x)) == [start]
  {
    assert [start][1..] == [];
  }
}
