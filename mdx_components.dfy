/**
 * The table of contents of a rendered post: the `h1` and `h2` elements of
 * the page, in document order, turned into heading records and filtered so
 * that the post's own title and two fixed headings are left out. The
 * document is a parameter (its elements in document order); the effect that
 * computes the list runs on mount and whenever the code or the title changes.
 */
module MdxComponents {
  import opened Wrappers
  import JsLib

  /** An element of the rendered page: its `id`, its upper-case `tagName` and its `textContent` (maybe null). */
  datatype Element = Element(id: string, tagName: string, textContent: Option<string>)

  /** A table-of-contents entry; `level` is `None` where `parseInt` gives `NaN`. */
  datatype Heading = Heading(id: string, text: string, level: Option<int>)

  /** `document.querySelectorAll('h1, h2')`: the `h1` and `h2` elements, in document order. */
  predicate IsH1OrH2(e: Element) {
    e.tagName == "H1" || e.tagName == "H2"
  }

  /** `parseInt(tagName[1] || '')`: the digit in the second position, or `NaN` when there is none. */
  function Level(tagName: string): (l: Option<int>)
    ensures l.Some? <==> |tagName| >= 2 && JsLib.IsDigit(tagName[1])
    ensures l.Some? ==> 0 <= l.value <= 9 && JsLib.DigitChar(l.value) == tagName[1]
  {
    if |tagName| >= 2 && JsLib.IsDigit(tagName[1]) then Some((tagName[1] as int) - ('0' as int)) else None
  }

  /** The heading record of one element: its text defaults to `''`. */
  function ToHeading(e: Element): (h: Heading)
    ensures h.id == e.id && h.level == Level(e.tagName)
    ensures h.text == e.textContent.GetOr("")
  {
    Heading(e.id, if e.textContent.Some? && e.textContent.value != "" then e.textContent.value else "", Level(e.tagName))
  }

  /** An `h1` or `h2` is at level 1 or 2. */
  lemma H1H2Levels(e: Element)
    requires IsH1OrH2(e)
    ensures ToHeading(e).level == Some(1) || ToHeading(e).level == Some(2)
    ensures e.tagName == "H1" ==> ToHeading(e).level == Some(1)
  {
  }

  /** `.map(...)` over the queried elements. */
  function ToHeadings(es: seq<Element>): (hs: seq<Heading>)
    ensures |hs| == |es|
    ensures forall i :: 0 <= i < |es| ==> hs[i] == ToHeading(es[i])
  {
    if es == [] then [] else [ToHeading(es[0])] + ToHeadings(es[1..])
  }

  /** The filter: neither of the two fixed headings, nor the post's title. */
  function Wanted(title: string): Heading -> bool {
    (h: Heading) => h.text != "Table of Contents" && h.text != "Blog Name" && h.text != title
  }

  /** The headings the effect stores for a page whose elements are `page`. */
  function TableOfContents(page: seq<Element>, title: string): seq<Heading> {
    JsLib.Filter(ToHeadings(JsLib.Filter(page, IsH1OrH2)), Wanted(title))
  }

  /**
   * The table of contents keeps the page's `h1`/`h2` headings in order, drops
   * exactly the unwanted ones, and every entry is at level 1 or 2.
   */
  lemma TableOfContentsSpec(page: seq<Element>, title: string)
    ensures var toc := TableOfContents(page, title);
            var all := ToHeadings(JsLib.Filter(page, IsH1OrH2));
            && JsLib.IsSubsequence(toc, all)
            && (forall h :: h in toc <==> h in all && Wanted(title)(h))
            && (forall i :: 0 <= i < |toc| ==>
                  toc[i].text != "Table of Contents" && toc[i].text != "Blog Name" && toc[i].text != title)
            && (forall i :: 0 <= i < |toc| ==> toc[i].level == Some(1) || toc[i].level == Some(2))
  {
    var queried := JsLib.Filter(page, IsH1OrH2);
    var all := ToHeadings(queried);
    JsLib.FilterIsSubsequence(all, Wanted(title));
    JsLib.FilterMembers(all, Wanted(title));
    var toc := TableOfContents(page, title);
    forall i | 0 <= i < |toc|
      ensures toc[i].level == Some(1) || toc[i].level == Some(2)
    {
      assert toc[i] in all;
      var j :| 0 <= j < |all| && all[j] == toc[i];
      H1H2Levels(queried[j]);
    }
  }

  /** The component's stored headings and the props the effect last ran with. */
  class MdxComponent {
    var code: string
    var title: string
    /** Whether the effect has run at least once (on mount). */
    var mounted: bool
    var headings: seq<Heading>

    constructor (code: string, title: string)
      ensures this.code == code && this.title == title && !mounted && headings == []
    {
      this.code := code;
      this.title := title;
      mounted := false;
      headings := [];
    }

    /**
     * A render with props `code` and `title` over the page `page`: the effect
     * recomputes the headings on mount and when either prop changed, and
     * otherwise leaves them as they were.
     */
    method Render(code: string, title: string, page: seq<Element>)
      modifies this
      ensures this.code == code && this.title == title && mounted
      ensures !old(mounted) || code != old(this.code) || title != old(this.title) ==>
                headings == TableOfContents(page, title)
      ensures old(mounted) && code == old(this.code) && title == old(this.title) ==>
                headings == old(headings)
    {
      if !mounted || code != this.code || title != this.title {
        headings := TableOfContents(page, title);
      }
      this.code := code;
      this.title := title;
      mounted := true;
    }
  }
}
