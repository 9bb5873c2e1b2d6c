/**
 * The latest-videos grid: a skeleton of six placeholders while the list is
 * being fetched, then at most the first nine videos, each with its view count
 * shortened to millions or thousands. A failed fetch shows an empty grid.
 * `toFixed(1)` is a parameter; only the choice of unit is modelled.
 */
module VideoGrid {
  import JsLib

  datatype Video = Video(id: string, title: string, imageUrl: string, videoUrl: string, viewCount: int, publishedAt: string)

  const MaxShown := 9
  const SkeletonCount := 6

  /** `formatViewCount`: `M` from a million, `K` from a thousand, otherwise the plain number. */
  function FormatViewCount(views: int, toFixed: real -> string): (r: string)
    ensures views >= 1000000 ==> r == toFixed((views as real) / 1000000.0) + "M"
    ensures 1000 <= views < 1000000 ==> r == toFixed((views as real) / 1000.0) + "K"
    ensures views < 1000 ==> r == JsLib.IntToString(views)
  {
    if views >= 1000000 then toFixed((views as real) / 1000000.0) + "M"
    else if views >= 1000 then toFixed((views as real) / 1000.0) + "K"
    else JsLib.IntToString(views)
  }

  /** The unit shown: exactly one of the three branches applies, and a plain count ends in a digit. */
  lemma ViewCountUnit(views: int, toFixed: real -> string)
    ensures views >= 1000000 ==> JsLib.EndsWith(FormatViewCount(views, toFixed), "M")
    ensures 1000 <= views < 1000000 ==> JsLib.EndsWith(FormatViewCount(views, toFixed), "K")
    ensures views < 1000 ==> JsLib.IsDigit(FormatViewCount(views, toFixed)[|FormatViewCount(views, toFixed)| - 1])
  {
    var r := FormatViewCount(views, toFixed);
    if views >= 1000000 {
      assert r[|r| - 1..] == "M";
    } else if views >= 1000 {
      assert r[|r| - 1..] == "K";
    }
  }

  /** `fetchVideos`' outcome: a thrown fetch, a response that is not ok, or the parsed list. */
  datatype FetchOutcome = Threw | NotOk | Parsed(videos: seq<Video>)

  /** `fetchVideos`: the parsed list, or an empty one on any failure. */
  function FetchVideos(outcome: FetchOutcome): (r: seq<Video>)
    ensures outcome.Parsed? ==> r == outcome.videos
    ensures !outcome.Parsed? ==> r == []
  {
    if outcome.Parsed? then outcome.videos else []
  }

  /** `videos.slice(0, 9)`: the first nine videos, or all of them when there are fewer. */
  function Shown(videos: seq<Video>): (r: seq<Video>)
    ensures |r| == if |videos| < MaxShown then |videos| else MaxShown
    ensures r == videos[..|r|]
  {
    JsLib.SlicePrefix(videos, MaxShown);
    JsLib.Slice(videos, 0, MaxShown)
  }

  /** What the grid renders. */
  datatype View = Skeleton(placeholders: nat) | Grid(cards: seq<Video>)

  function Render(loading: bool, videos: seq<Video>): (v: View)
    ensures loading <==> v == Skeleton(SkeletonCount)
    ensures !loading ==> v == Grid(Shown(videos))
  {
    if loading then Skeleton(SkeletonCount) else Grid(Shown(videos))
  }

  /** The cards animate only once the list has arrived and is not empty. */
  predicate Animates(loading: bool, videos: seq<Video>) {
    !loading && |videos| > 0
  }

  /** After a failed fetch the grid is rendered empty and nothing animates. */
  lemma FailedFetchIsEmpty(outcome: FetchOutcome)
    requires !outcome.Parsed?
    ensures Render(false, FetchVideos(outcome)) == Grid([])
    ensures !Animates(false, FetchVideos(outcome))
  {
  }
}
