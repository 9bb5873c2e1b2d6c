/**
 * The testimonials wall: the comments are cut into three consecutive groups
 * of `ceil(n / 3)` (the last may be shorter or empty), one desktop column
 * each, and every column, like the single mobile column, renders its list
 * twice so the vertical marquee can loop.
 */
module ScrollingTestimonials {
  import JsLib

  /** `Math.ceil(n / 3)`. */
  function Third(n: nat): (t: nat)
    ensures 3 * t >= n && 3 * (t - 1) < n
  {
    (n + 2) / 3
  }

  /** `splitTestimonials`: the slices `[0, third)`, `[third, 2 * third)` and `[2 * third, n)`. */
  function Split<T>(testis: seq<T>): (groups: seq<seq<T>>)
    ensures |groups| == 3
  {
    var third := Third(|testis|);
    [JsLib.Slice(testis, 0, third), JsLib.Slice(testis, third, 2 * third), JsLib.SliceFrom(testis, 2 * third)]
  }

  /** The three groups, read one after another, are the comments in their original order. */
  lemma SplitConcat<T>(testis: seq<T>)
    ensures var g := Split(testis); g[0] + g[1] + g[2] == testis
  {
    var n, t := |testis|, Third(|testis|);
    var a := if t < n then t else n;
    var b := if 2 * t < n then 2 * t else n;
    assert Split(testis)[0] == testis[..a];
    assert Split(testis)[1] == testis[a..b];
    assert Split(testis)[2] == testis[b..];
    assert testis[..a] + testis[a..b] + testis[b..] == testis;
  }

  /** No group holds more than `third` comments, and only the last can hold fewer while comments remain. */
  lemma SplitSizes<T>(testis: seq<T>)
    ensures var g := Split(testis); var t := Third(|testis|);
            && |g[0]| <= t && |g[1]| <= t && |g[2]| <= t
            && (|g[1]| > 0 ==> |g[0]| == t)
            && (|g[2]| > 0 ==> |g[0]| == t && |g[1]| == t)
  {
  }

  /** The speed class of desktop column `index`: only the middle one is slow. */
  function ColumnClass(index: nat): (c: string)
    ensures c == "marquee-slow" <==> index == 1
    ensures c != "marquee-slow" ==> c == "marquee-fast"
  {
    if index == 1 then "marquee-slow" else "marquee-fast"
  }

  /** One marquee column: its comments, then the same comments again. */
  function Doubled<T>(group: seq<T>): (r: seq<T>)
    ensures |r| == 2 * |group|
    ensures r[..|group|] == group && r[|group|..] == group
  {
    group + group
  }

  /** A rendered desktop column: its speed class and its cards. */
  datatype Column<T> = Column(speed: string, cards: seq<T>)

  /** The three desktop columns. */
  function DesktopColumns<T>(testis: seq<T>): (cols: seq<Column<T>>)
    ensures |cols| == 3
    ensures forall i :: 0 <= i < 3 ==> cols[i].cards == Doubled(Split(testis)[i]) && cols[i].speed == ColumnClass(i)
  {
    var g := Split(testis);
    [Column(ColumnClass(0), Doubled(g[0])), Column(ColumnClass(1), Doubled(g[1])), Column(ColumnClass(2), Doubled(g[2]))]
  }

  /** Every comment shows exactly twice on the desktop grid, as on the mobile column. */
  lemma EachCommentTwice<T>(testis: seq<T>)
    ensures var cols := DesktopColumns(testis);
            multiset(cols[0].cards + cols[1].cards + cols[2].cards) == multiset(Doubled(testis))
  {
    var g := Split(testis);
    SplitConcat(testis);
    calc {
      multiset(Doubled(g[0]) + Doubled(g[1]) + Doubled(g[2]));
      multiset(g[0]) + multiset(g[0]) + multiset(g[1]) + multiset(g[1]) + multiset(g[2]) + multiset(g[2]);
      { assert multiset(testis) == multiset(g[0] + g[1] + g[2]); }
      multiset(testis) + multiset(testis);
      multiset(Doubled(testis));
    }
  }
}
