/**
 * The YouTube embed: extracting a video id from a URL or a bare id, building
 * the iframe URL with its query parameters in a fixed order, and the
 * thumbnail state (lazy iframe, fallback to the lower-resolution thumbnail,
 * then an error flag).
 *
 * `new URL(video).searchParams.get('v')` is the parameter `queryV`: `None`
 * when the URL constructor throws, `Some(None)` when there is no `v`.
 */
module ResponsiveYouTube {
  import opened Wrappers
  import JsLib

  // ---------------------------------------------------------------- id patterns

  /** `[A-Za-z0-9_-]`. */
  predicate IsIdChar(c: char) {
    ('A' <= c <= 'Z') || ('a' <= c <= 'z') || ('0' <= c <= '9') || c == '_' || c == '-'
  }

  /** The length of the longest prefix of `t` made of id characters. */
  function IdRun(t: string): (n: nat)
    ensures n <= |t|
    ensures forall i :: 0 <= i < n ==> IsIdChar(t[i])
    ensures n < |t| ==> !IsIdChar(t[n])
  {
    if t != [] && IsIdChar(t[0]) then 1 + IdRun(t[1..]) else 0
  }

  /** One of the five patterns: a literal prefix followed by an id of six or more characters, or a whole-string id. */
  datatype Pattern = Prefixed(prefix: string) | WholeId

  /** The patterns in the order they are tried. */
  const Patterns: seq<Pattern> := [
    Prefixed("youtu.be/"),
    Prefixed("youtube.com/watch?v="),
    Prefixed("youtube.com/embed/"),
    Prefixed("youtube.com/v/"),
    WholeId
  ]

  const MinIdLength: nat := 6

  /** The unanchored pattern `prefix([A-Za-z0-9_-]{6,})` matches at position `p` of `s`. */
  predicate MatchAt(s: string, prefix: string, p: nat) {
    && p + |prefix| <= |s|
    && s[p..p + |prefix|] == prefix
    && IdRun(s[p + |prefix|..]) >= MinIdLength
  }

  /** The leftmost match position at or after `i`. */
  function FindFrom(s: string, prefix: string, i: nat): (r: Option<nat>)
    ensures r.Some? ==> i <= r.value && MatchAt(s, prefix, r.value)
    ensures r.Some? ==> forall q :: i <= q < r.value ==> !MatchAt(s, prefix, q)
    ensures r.None? ==> forall q :: i <= q ==> !MatchAt(s, prefix, q)
    decreases |s| - i
  {
    if i + |prefix| > |s| then None
    else if MatchAt(s, prefix, i) then Some(i)
    else FindFrom(s, prefix, i + 1)
  }

  /** The captured group at a match position: the whole run of id characters after the prefix (the repetition is greedy). */
  function CaptureAt(s: string, prefix: string, p: nat): string
    requires p + |prefix| <= |s|
  {
    var after := s[p + |prefix|..];
    after[..IdRun(after)]
  }

  /** `video.match(pattern)?.[1]`. */
  function MatchPattern(pat: Pattern, s: string): (r: Option<string>)
    ensures r.Some? ==> |r.value| >= MinIdLength && forall i :: 0 <= i < |r.value| ==> IsIdChar(r.value[i])
  {
    match pat
    case WholeId => if |s| >= MinIdLength && IdRun(s) == |s| then Some(s) else None
    case Prefixed(prefix) =>
      match FindFrom(s, prefix, 0)
      case None => None
      case Some(p) => Some(CaptureAt(s, prefix, p))
  }

  /** A prefixed match captures the run at the leftmost match, and the run is maximal: the next character (if any) is not an id character. */
  lemma PrefixedCapture(s: string, prefix: string)
    requires MatchPattern(Prefixed(prefix), s).Some?
    ensures exists p: nat :: MatchAt(s, prefix, p) && (forall q :: 0 <= q < p ==> !MatchAt(s, prefix, q))
                        && MatchPattern(Prefixed(prefix), s).value == CaptureAt(s, prefix, p)
                        && (p + |prefix| + |CaptureAt(s, prefix, p)| < |s| ==> !IsIdChar(s[p + |prefix| + |CaptureAt(s, prefix, p)|]))
  {
    var p := FindFrom(s, prefix, 0).value;
    var after := s[p + |prefix|..];
    var n := IdRun(after);
    if p + |prefix| + n < |s| {
      assert s[p + |prefix| + n] == after[n];
    }
  }

  /** The bare-id pattern matches exactly the strings of six or more id characters, and captures all of it. */
  lemma WholeIdMatch(s: string)
    ensures MatchPattern(WholeId, s).Some? <==> |s| >= MinIdLength && forall i :: 0 <= i < |s| ==> IsIdChar(s[i])
    ensures MatchPattern(WholeId, s).Some? ==> MatchPattern(WholeId, s).value == s
  {
    if |s| >= MinIdLength && forall i :: 0 <= i < |s| ==> IsIdChar(s[i]) {
      AllIdRun(s);
    }
  }

  lemma {:induction false} AllIdRun(s: string)
    requires forall i :: 0 <= i < |s| ==> IsIdChar(s[i])
    ensures IdRun(s) == |s|
  {
    if s != [] {
      AllIdRun(s[1..]);
    }
  }

  /** The `?v=` fallback: the parameter's value, or `''` when it is missing or the URL does not parse. */
  function QueryFallback(v: Option<Option<string>>): string {
    match v
    case None => ""
    case Some(None) => ""
    case Some(Some(x)) => x
  }

  /** The capture of the first pattern, from the `k`-th on, that matches `s`. */
  function FirstMatch(s: string, k: nat): (r: Option<string>)
    ensures r.Some? ==> |r.value| >= MinIdLength && forall i :: 0 <= i < |r.value| ==> IsIdChar(r.value[i])
    decreases |Patterns| - k
  {
    if k >= |Patterns| then None
    else
      match MatchPattern(Patterns[k], s)
      case Some(id) => Some(id)
      case None => FirstMatch(s, k + 1)
  }

  /** The first matching pattern wins: its capture is the result, whatever the later patterns would give. */
  lemma {:induction false} FirstMatchWins(s: string, from: nat, k: nat)
    requires from <= k < |Patterns| && MatchPattern(Patterns[k], s).Some?
    requires forall j :: from <= j < k ==> MatchPattern(Patterns[j], s).None?
    ensures FirstMatch(s, from) == MatchPattern(Patterns[k], s)
    decreases k - from
  {
    if from < k {
      FirstMatchWins(s, from + 1, k);
    }
  }

  /** No pattern matches exactly when the search comes back empty. */
  lemma {:induction false} FirstMatchNone(s: string, from: nat)
    ensures FirstMatch(s, from).None? <==> forall j :: from <= j < |Patterns| ==> MatchPattern(Patterns[j], s).None?
    decreases |Patterns| - from
  {
    if from < |Patterns| {
      FirstMatchNone(s, from + 1);
    }
  }

  /**
   * `videoId`: `''` for an empty input; otherwise the capture of the first
   * pattern that matches; otherwise the `v` query parameter.
   */
  method VideoId(video: string, queryV: string -> Option<Option<string>>) returns (id: string)
    ensures video == "" ==> id == ""
    ensures video != "" && FirstMatch(video, 0).Some? ==> id == FirstMatch(video, 0).value
    ensures video != "" && FirstMatch(video, 0).None? ==> id == QueryFallback(queryV(video))
  {
    if video == "" {
      return "";
    }
    for k := 0 to |Patterns|
      invariant FirstMatch(video, 0) == FirstMatch(video, k)
    {
      var m := MatchPattern(Patterns[k], video);
      if m.Some? {
        return m.value;
      }
    }
    id := QueryFallback(queryV(video));
  }

  // ---------------------------------------------------------------- embed URL

  /** `noCookie ? 'www.youtube-nocookie.com' : 'www.youtube.com'`. */
  function EmbedDomain(noCookie: bool): (d: string)
    ensures noCookie <==> d == "www.youtube-nocookie.com"
    ensures !noCookie <==> d == "www.youtube.com"
  {
    if noCookie then "www.youtube-nocookie.com" else "www.youtube.com"
  }

  /** A `URLSearchParams` as its ordered list of pairs. */
  type Params = seq<(string, string)>

  /** The pairs with key `k` removed. */
  function RemoveKey(ps: Params, k: string): (r: Params)
    ensures forall i :: 0 <= i < |r| ==> r[i].0 != k
  {
    if ps == [] then [] else (if ps[0].0 == k then [] else [ps[0]]) + RemoveKey(ps[1..], k)
  }

  /** `params.set(k, v)`: the first pair with key `k` gets `v` and later ones go; without one, the pair is appended. */
  function SetParam(ps: Params, k: string, v: string): (r: Params)
  {
    if ps == [] then [(k, v)]
    else if ps[0].0 == k then [(k, v)] + RemoveKey(ps[1..], k)
    else [ps[0]] + SetParam(ps[1..], k, v)
  }

  /** Removing a key keeps exactly the pairs with other keys. */
  lemma {:induction false} RemoveKeyContents(ps: Params, k: string)
    ensures forall p :: p in RemoveKey(ps, k) <==> p in ps && p.0 != k
  {
    if ps != [] {
      RemoveKeyContents(ps[1..], k);
      assert ps == [ps[0]] + ps[1..];
    }
  }

  /** After `set(k, v)` the key `k` has the one value `v`, and the pairs with other keys are those there were. */
  lemma {:induction false} SetParamContents(ps: Params, k: string, v: string)
    ensures (k, v) in SetParam(ps, k, v)
    ensures forall p :: p in SetParam(ps, k, v) && p.0 == k ==> p.1 == v
    ensures forall p: (string, string) :: p.0 != k ==> (p in SetParam(ps, k, v) <==> p in ps)
  {
    if ps != [] {
      assert ps == [ps[0]] + ps[1..];
      if ps[0].0 == k {
        RemoveKeyContents(ps[1..], k);
      } else {
        SetParamContents(ps[1..], k, v);
      }
    }
  }

  /** Setting a key that is not there yet appends it. */
  lemma {:induction false} SetParamNew(ps: Params, k: string, v: string)
    requires forall i :: 0 <= i < |ps| ==> ps[i].0 != k
    ensures SetParam(ps, k, v) == ps + [(k, v)]
  {
    if ps != [] {
      SetParamNew(ps[1..], k, v);
      assert ps == [ps[0]] + ps[1..];
    }
  }

  /** Setting a key that is there replaces its value in place. */
  lemma {:induction false} SetParamExisting(ps: Params, i: nat, v: string)
    requires i < |ps|
    requires forall j :: 0 <= j < |ps| && j != i ==> ps[j].0 != ps[i].0
    ensures SetParam(ps, ps[i].0, v) == ps[i := (ps[i].0, v)]
  {
    var k := ps[i].0;
    if i == 0 {
      RemoveAbsent(ps[1..], k);
      assert ps[0 := (k, v)] == [(k, v)] + ps[1..];
    } else {
      SetParamExisting(ps[1..], i - 1, v);
      assert ps[i := (k, v)] == [ps[0]] + ps[1..][i - 1 := (k, v)];
    }
  }

  lemma {:induction false} RemoveAbsent(ps: Params, k: string)
    requires forall i :: 0 <= i < |ps| ==> ps[i].0 != k
    ensures RemoveKey(ps, k) == ps
  {
    if ps != [] {
      RemoveAbsent(ps[1..], k);
      assert ps == [ps[0]] + ps[1..];
    }
  }

  /** `params.toString()` for pairs whose keys and values need no percent-encoding: `k=v` joined by `&`. */
  function Serialize(ps: Params): (r: string)
    ensures r == "" <==> ps == []
    ensures ps != [] ==> JsLib.StartsWith(r, ps[0].0 + "=" + ps[0].1)
  {
    if ps == [] then ""
    else if |ps| == 1 then ps[0].0 + "=" + ps[0].1
    else ps[0].0 + "=" + ps[0].1 + "&" + Serialize(ps[1..])
  }

  /** A pair set after others is written last, after an `&`. */
  lemma {:induction false} SerializeSnoc(ps: Params, k: string, v: string)
    requires ps != []
    ensures Serialize(ps + [(k, v)]) == Serialize(ps) + "&" + k + "=" + v
  {
    var q := ps + [(k, v)];
    var h := ps[0].0 + "=" + ps[0].1;
    assert q[0] == ps[0] && q[1..] == ps[1..] + [(k, v)];
    assert Serialize(q) == h + "&" + Serialize(q[1..]);
    if |ps| == 1 {
      assert q[1..] == [(k, v)];
      assert Serialize(ps) == h;
    } else {
      SerializeSnoc(ps[1..], k, v);
      assert Serialize(ps) == h + "&" + Serialize(ps[1..]);
    }
  }

  /** The `start` prop: missing, a finite number of seconds, or a non-finite value (`NaN`, infinities). */
  datatype StartTime = Seconds(value: real) | NotFinite

  /** `start && Number.isFinite(start)`: present, finite and non-zero. */
  predicate UsesStart(start: Option<StartTime>) {
    start.Some? && start.value.Seconds? && start.value.value != 0.0
  }

  /** The parameters before the two fixed trailing ones. */
  function LeadingParams(controls: bool, autoplay: bool, start: Option<StartTime>): (ps: Params)
    ensures forall i :: 0 <= i < |ps| ==> ps[i].0 != "modestbranding" && ps[i].0 != "enablejsapi"
  {
    [("rel", "0"), ("playsinline", "1"), ("controls", if controls then "1" else "0")]
    + (if autoplay then [("autoplay", "1")] else [])
    + (if UsesStart(start) then [("start", JsLib.IntToString(start.value.value.Floor))] else [])
  }

  /** The query the embed URL carries, in order. */
  function EmbedParams(controls: bool, autoplay: bool, start: Option<StartTime>): (ps: Params)
    ensures |ps| == 5 + (if autoplay then 1 else 0) + (if UsesStart(start) then 1 else 0)
    ensures ps[0] == ("rel", "0") && ps[1] == ("playsinline", "1")
    ensures ps[2] == ("controls", if controls then "1" else "0")
    ensures ps[|ps| - 2] == ("modestbranding", "1") && ps[|ps| - 1] == ("enablejsapi", "1")
    ensures autoplay ==> ps[3] == ("autoplay", "1")
    ensures UsesStart(start) ==> ps[|ps| - 3] == ("start", JsLib.IntToString(start.value.value.Floor))
  {
    LeadingParams(controls, autoplay, start) + [("modestbranding", "1"), ("enablejsapi", "1")]
  }

  /** Setting two keys that are not there yet appends both, in order. */
  lemma SetTwoNew(ps: Params, k1: string, v1: string, k2: string, v2: string)
    requires k1 != k2
    requires forall i :: 0 <= i < |ps| ==> ps[i].0 != k1 && ps[i].0 != k2
    ensures SetParam(SetParam(ps, k1, v1), k2, v2) == ps + [(k1, v1), (k2, v2)]
  {
    SetParamNew(ps, k1, v1);
    var q := ps + [(k1, v1)];
    assert forall i :: 0 <= i < |q| ==> q[i].0 != k2;
    SetParamNew(q, k2, v2);
    assert q + [(k2, v2)] == ps + [(k1, v1), (k2, v2)];
  }

  /** Every parameter is set once: the keys are distinct. */
  lemma EmbedParamsDistinct(controls: bool, autoplay: bool, start: Option<StartTime>)
    ensures var ps := EmbedParams(controls, autoplay, start);
            forall i, j :: 0 <= i < j < |ps| ==> ps[i].0 != ps[j].0
  {
  }

  /** The first calls of `iframeSrc` on a fresh parameter list: the fixed ones, then autoplay and start when asked for. */
  method SetLeadingParams(controls: bool, autoplay: bool, start: Option<StartTime>) returns (params: Params)
    ensures params == LeadingParams(controls, autoplay, start)
  {
    var controlsValue := if controls then "1" else "0";
    params := [];
    SetParamNew(params, "rel", "0");
    params := SetParam(params, "rel", "0");
    SetParamNew(params, "playsinline", "1");
    params := SetParam(params, "playsinline", "1");
    SetParamNew(params, "controls", controlsValue);
    params := SetParam(params, "controls", controlsValue);
    ghost var head := [("rel", "0"), ("playsinline", "1"), ("controls", controlsValue)];
    assert params == head;
    if autoplay {
      SetParamNew(params, "autoplay", "1");
      params := SetParam(params, "autoplay", "1");
    }
    ghost var withAutoplay := head + (if autoplay then [("autoplay", "1")] else []);
    assert params == withAutoplay;
    if UsesStart(start) {
      var seconds := JsLib.IntToString(start.value.value.Floor);
      SetParamNew(params, "start", seconds);
      params := SetParam(params, "start", seconds);
    }
  }

  /** `iframeSrc`: `''` without an id; otherwise the embed URL, its parameters set one call at a time. */
  method IframeSrc(videoId: string, noCookie: bool, controls: bool, autoplay: bool, start: Option<StartTime>)
    returns (src: string)
    ensures videoId == "" ==> src == ""
    ensures videoId != "" ==>
      src == "https://" + EmbedDomain(noCookie) + "/embed/" + videoId + "?" + Serialize(EmbedParams(controls, autoplay, start))
  {
    if videoId == "" {
      return "";
    }
    var params := SetLeadingParams(controls, autoplay, start);
    SetTwoNew(params, "modestbranding", "1", "enablejsapi", "1");
    params := SetParam(params, "modestbranding", "1");
    params := SetParam(params, "enablejsapi", "1");
    src := "https://" + EmbedDomain(noCookie) + "/embed/" + videoId + "?" + Serialize(params);
  }

  // ---------------------------------------------------------------- thumbnail

  /** `thumbnailSrc`: the high-resolution still, `''` without an id. */
  function Thumbnail(videoId: string): (r: string)
    ensures videoId == "" <==> r == ""
    ensures videoId != "" ==> JsLib.EndsWith(r, "/maxresdefault.jpg")
  {
    if videoId == "" then "" else "https://i.ytimg.com/vi/" + videoId + "/maxresdefault.jpg"
  }

  /** The lower-resolution still used after the first load error. */
  function HqThumbnail(videoId: string): (r: string)
    ensures JsLib.EndsWith(r, "hqdefault.jpg")
  {
    "https://i.ytimg.com/vi/" + videoId + "/hqdefault.jpg"
  }

  /** A string ending in `t` includes `t`. */
  lemma {:induction false} EndsWithIncludes(s: string, t: string)
    requires JsLib.EndsWith(s, t)
    ensures JsLib.Includes(s, t)
    decreases |s|
  {
    if |s| > |t| {
      assert s[1..][|s[1..]| - |t|..] == s[|s| - |t|..];
      EndsWithIncludes(s[1..], t);
    } else {
      assert s[..|t|] == s;
    }
  }

  /** What the player area shows. */
  datatype View = Invalid | Player(src: string) | Still(image: Option<string>)

  /** The component's state: the id, the iframe flag, the error flag and the still image's current `src`. */
  class Embed {
    const videoId: string
    const iframe: string
    var isLoaded: bool
    var hasError: bool
    var imageSrc: string

    /** The first render: the iframe source is built from the props, and the iframe is there at once unless the player is lazy. */
    constructor (videoId: string, noCookie: bool, controls: bool, autoplay: bool, start: Option<StartTime>, lazy: bool)
      ensures this.videoId == videoId
      ensures videoId == "" ==> iframe == ""
      ensures videoId != "" ==>
        iframe == "https://" + EmbedDomain(noCookie) + "/embed/" + videoId + "?" + Serialize(EmbedParams(controls, autoplay, start))
      ensures isLoaded == !lazy && !hasError && imageSrc == Thumbnail(videoId)
    {
      this.videoId := videoId;
      var src := IframeSrc(videoId, noCookie, controls, autoplay, start);
      this.iframe := src;
      isLoaded := !lazy;
      hasError := false;
      imageSrc := Thumbnail(videoId);
    }

    /** The invalid state when there is no id; else the iframe once loaded; else the still image (or none after the error). */
    function Render(): (v: View)
      reads this
      ensures videoId == "" <==> v == Invalid
      ensures videoId != "" && isLoaded ==> v == Player(iframe)
      ensures videoId != "" && !isLoaded ==> v == Still(if hasError then None else Some(imageSrc))
    {
      if videoId == "" then Invalid
      else if isLoaded then Player(iframe)
      else Still(if hasError then None else Some(imageSrc))
    }

    /** `onActivate`: load the iframe. */
    method Activate()
      modifies this
      ensures isLoaded && hasError == old(hasError) && imageSrc == old(imageSrc)
    {
      isLoaded := true;
    }

    /** `handleImageError`: switch to the lower-resolution still, or give up if that is the one that failed. */
    method ImageError()
      modifies this
      ensures isLoaded == old(isLoaded)
      ensures !JsLib.Includes(old(imageSrc), "hqdefault.jpg") ==>
                imageSrc == HqThumbnail(videoId) && hasError == old(hasError)
      ensures JsLib.Includes(old(imageSrc), "hqdefault.jpg") ==> hasError && imageSrc == old(imageSrc)
    {
      if !JsLib.Includes(imageSrc, "hqdefault.jpg") {
        imageSrc := HqThumbnail(videoId);
      } else {
        hasError := true;
      }
    }
  }

  /** No position of the high-resolution still holds `hqdefault.jpg`: a `q` only occurs inside the id, and nine places later there is no `.`. */
  lemma MaxresNoOccurrence(videoId: string, p: nat)
    requires videoId != "" && forall i :: 0 <= i < |videoId| ==> IsIdChar(videoId[i])
    ensures !JsLib.OccursAt(Thumbnail(videoId), "hqdefault.jpg", p)
  {
    var t := "hqdefault.jpg";
    var a := "https://i.ytimg.com/vi/";
    var b := "/maxresdefault.jpg";
    var s := Thumbnail(videoId);
    assert s == a + videoId + b;
    if p + |t| <= |s| {
      var w := s[p..p + |t|];
      assert w[1] == s[p + 1] && w[9] == s[p + 9];
      if p + 1 < |a| {
        assert s[p + 1] == a[p + 1];
        assert forall i :: 0 <= i < |a| ==> a[i] != 'q';
        assert w[1] != t[1];
      } else if p + 1 >= |a| + |videoId| {
        assert s[p + 1] == b[p + 1 - |a| - |videoId|];
        assert forall i :: 0 <= i < |b| ==> b[i] != 'q';
        assert w[1] != t[1];
      } else if p + 9 < |a| + |videoId| {
        assert s[p + 9] == videoId[p + 9 - |a|];
        assert w[9] != t[9];
      } else {
        assert s[p + 9] == b[p + 9 - |a| - |videoId|];
        assert forall o :: 0 <= o < 8 ==> b[o] != '.';
        assert w[9] != t[9];
      }
    }
  }

  /** The high-resolution still of an id made of id characters does not mention `hqdefault.jpg`, so its first load error switches to the fallback. */
  lemma MaxresIsNotFallback(videoId: string)
    requires forall i :: 0 <= i < |videoId| ==> IsIdChar(videoId[i])
    ensures !JsLib.Includes(Thumbnail(videoId), "hqdefault.jpg")
  {
    JsLib.IncludesOccurs(Thumbnail(videoId), "hqdefault.jpg");
    if videoId != "" {
      forall p: nat ensures !JsLib.OccursAt(Thumbnail(videoId), "hqdefault.jpg", p) {
        MaxresNoOccurrence(videoId, p);
      }
    }
  }

  /** A lazy player whose still fails twice ends on the error placeholder: fallback first, then the flag. */
  method StillFailsTwice(videoId: string, noCookie: bool, controls: bool, autoplay: bool, start: Option<StartTime>)
    returns (e: Embed)
    requires videoId != "" && forall i :: 0 <= i < |videoId| ==> IsIdChar(videoId[i])
    ensures fresh(e)
    ensures e.Render() == Still(None) && e.imageSrc == HqThumbnail(videoId)
  {
    e := new Embed(videoId, noCookie, controls, autoplay, start, true);
    MaxresIsNotFallback(videoId);
    e.ImageError();
    assert e.Render() == Still(Some(HqThumbnail(videoId)));
    EndsWithIncludes(HqThumbnail(videoId), "hqdefault.jpg");
    e.ImageError();
  }
}
