/**
 * Post helpers of the content layer: sorting an array of posts newest first
 * in place (dates are strings compared as strings), counting tags over the
 * published posts, ordering tags by count, and selecting posts by tag slug.
 * The slug function is a parameter.
 */
module Utils {
  import JsLib
  import opened Wrappers

  /** A post of the content layer; `tags` may be missing. */
  datatype Post = Post(slug: string, title: string, date: string, published: bool, tags: Option<seq<string>>)

  // ---------------------------------------------------------------- string order

  /** `a < b` on strings: the first differing character decides, and a proper prefix comes first. */
  predicate StrLt(a: string, b: string) {
    if b == [] then false
    else if a == [] then true
    else if a[0] != b[0] then a[0] < b[0]
    else StrLt(a[1..], b[1..])
  }

  lemma {:induction false} StrLtIrreflexive(a: string)
    ensures !StrLt(a, a)
  {
    if a != [] {
      StrLtIrreflexive(a[1..]);
    }
  }

  /** Two different strings are ordered one way or the other, never both. */
  lemma {:induction false} StrLtTotal(a: string, b: string)
    ensures a != b ==> StrLt(a, b) || StrLt(b, a)
    ensures !(StrLt(a, b) && StrLt(b, a))
  {
    if a != [] && b != [] && a[0] == b[0] {
      StrLtTotal(a[1..], b[1..]);
      if a != b {
        assert a == [a[0]] + a[1..] && b == [b[0]] + b[1..];
      }
    }
  }

  lemma {:induction false} StrLtTransitive(a: string, b: string, c: string)
    requires StrLt(a, b) && StrLt(b, c)
    ensures StrLt(a, c)
  {
    if a != [] && a[0] == b[0] && b[0] == c[0] {
      StrLtTransitive(a[1..], b[1..], c[1..]);
    }
  }

  /** Post `x` may stand before `y` in newest-first order: `x.date >= y.date`. */
  predicate NotOlder(x: Post, y: Post) {
    !StrLt(x.date, y.date)
  }

  lemma NotOlderTransitive(x: Post, y: Post, z: Post)
    requires NotOlder(x, y) && NotOlder(y, z)
    ensures NotOlder(x, z)
  {
    StrLtTotal(x.date, y.date);
    StrLtTotal(y.date, z.date);
    StrLtTotal(x.date, z.date);
    if StrLt(x.date, z.date) {
      if x.date == y.date {
      } else if y.date == z.date {
      } else {
        StrLtTransitive(z.date, y.date, x.date);
      }
    }
  }

  /** The comparator of `sortPosts`: -1 for a later date, 1 for an earlier one, 0 for the same. */
  function CompareByDateDesc(a: Post, b: Post): (c: int)
    ensures c == 0 <==> a.date == b.date
    ensures c < 0 <==> StrLt(b.date, a.date)
    ensures c > 0 <==> StrLt(a.date, b.date)
    ensures c in {-1, 0, 1}
  {
    StrLtTotal(a.date, b.date);
    StrLtIrreflexive(a.date);
    if StrLt(b.date, a.date) then -1 else if StrLt(a.date, b.date) then 1 else 0
  }

  ghost predicate SortedNewestFirst(s: seq<Post>) {
    forall i, j :: 0 <= i < j < |s| ==> NotOlder(s[i], s[j])
  }

  /** The posts of `s` dated `d`, in order: the order a stable sort must keep. */
  ghost function SameDate(s: seq<Post>, d: string): seq<Post> {
    if s == [] then [] else (if s[0].date == d then [s[0]] else []) + SameDate(s[1..], d)
  }

  lemma {:induction false} SameDateConcat(a: seq<Post>, b: seq<Post>, d: string)
    ensures SameDate(a + b, d) == SameDate(a, d) + SameDate(b, d)
  {
    if a == [] {
      assert a + b == b;
    } else {
      assert (a + b)[0] == a[0] && (a + b)[1..] == a[1..] + b;
      SameDateConcat(a[1..], b, d);
    }
  }

  lemma {:induction false} SameDateNone(s: seq<Post>, d: string)
    requires forall k :: 0 <= k < |s| ==> s[k].date != d
    ensures SameDate(s, d) == []
  {
    if s != [] {
      SameDateNone(s[1..], d);
    }
  }

  /** Moving `x` left past posts of other dates keeps the order among the posts of each date. */
  lemma MovedPastOtherDates(a: seq<Post>, x: Post, b: seq<Post>, c: seq<Post>, d: string)
    requires forall k :: 0 <= k < |b| ==> b[k].date != x.date
    ensures SameDate(a + [x] + b + c, d) == SameDate(a + b + [x] + c, d)
  {
    SameDateConcat(a + [x] + b, c, d);
    SameDateConcat(a + [x], b, d);
    SameDateConcat(a, [x], d);
    SameDateConcat(a + b + [x], c, d);
    SameDateConcat(a + b, [x], d);
    SameDateConcat(a, b, d);
    assert [x][1..] == [];
    if x.date == d {
      SameDateNone(b, d);
    }
  }

  /** The array after one insertion step, as a sequence: `o[i]` moved to `j`, the posts `o[j..i]` one place right. */
  lemma ShiftShape(s: seq<Post>, o: seq<Post>, j: nat, i: nat)
    requires j <= i < |o| == |s|
    requires forall k :: 0 <= k < j || i < k < |o| ==> s[k] == o[k]
    requires s[j] == o[i]
    requires forall k :: j < k <= i ==> s[k] == o[k - 1]
    ensures s == o[..j] + [o[i]] + o[j..i] + o[i + 1..]
    ensures o == o[..j] + o[j..i] + [o[i]] + o[i + 1..]
  {
    var a, b, c := o[..j], o[j..i], o[i + 1..];
    var t := a + [o[i]] + b + c;
    assert |t| == |s|;
    forall k | 0 <= k < |s| ensures t[k] == s[k] {
      if k < j {
        assert t[k] == a[k];
      } else if k == j {
        assert t[k] == o[i];
      } else if k <= i {
        assert t[k] == b[k - j - 1];
      } else {
        assert t[k] == c[k - i - 1];
      }
    }
    assert o == a + b + [o[i]] + c;
  }

  /** An insertion step that moves `o[i]` past strictly older posts only keeps every date's posts in order, and permutes. */
  lemma ShiftedKeepsDates(s: seq<Post>, o: seq<Post>, j: nat, i: nat)
    requires j <= i < |o| == |s|
    requires forall k :: 0 <= k < j || i < k < |o| ==> s[k] == o[k]
    requires s[j] == o[i]
    requires forall k :: j < k <= i ==> s[k] == o[k - 1]
    requires forall k :: j < k <= i ==> StrLt(s[k].date, s[j].date)
    ensures multiset(s) == multiset(o)
    ensures forall d :: SameDate(s, d) == SameDate(o, d)
  {
    ShiftShape(s, o, j, i);
    var a, x, b, c := o[..j], o[i], o[j..i], o[i + 1..];
    assert multiset(a + [x] + b + c) == multiset(a + b + [x] + c);
    forall k | 0 <= k < |b|
      ensures b[k].date != x.date
    {
      assert b[k] == s[j + 1 + k];
      StrLtIrreflexive(x.date);
    }
    forall d ensures SameDate(s, d) == SameDate(o, d) {
      MovedPastOtherDates(a, x, b, c, d);
    }
  }

  /**
   * `sortPosts`: sorts the array in place, newest first, and returns the same
   * array. An insertion sort moving each post left past the older ones.
   */
  method SortPosts(posts: array<Post>) returns (r: array<Post>)
    modifies posts
    ensures r == posts
    ensures SortedNewestFirst(posts[..])
    ensures multiset(posts[..]) == multiset(old(posts[..]))
    ensures forall d :: SameDate(posts[..], d) == SameDate(old(posts[..]), d)
  {
    for i := 0 to posts.Length
      invariant forall p, q :: 0 <= p < q < i ==> NotOlder(posts[p], posts[q])
      invariant multiset(posts[..]) == multiset(old(posts[..]))
      invariant forall d :: SameDate(posts[..], d) == SameDate(old(posts[..]), d)
    {
      MoveLeft(posts, i);
    }
    r := posts;
  }

  /** One insertion step: post `i` moves left past the older posts, leaving `posts[..i + 1]` newest first. */
  method MoveLeft(posts: array<Post>, i: nat)
    requires i < posts.Length
    requires forall p, q :: 0 <= p < q < i ==> NotOlder(posts[p], posts[q])
    modifies posts
    ensures forall p, q :: 0 <= p < q <= i ==> NotOlder(posts[p], posts[q])
    ensures multiset(posts[..]) == multiset(old(posts[..]))
    ensures forall d :: SameDate(posts[..], d) == SameDate(old(posts[..]), d)
  {
    var j := ShiftLeft(posts, i);
    ShiftedKeepsDates(posts[..], old(posts[..]), j, i);
    ShiftedSorted(posts[..], old(posts[..]), j, i);
  }

  /**
   * The loop of an insertion step: swaps post `i` left while its left
   * neighbour is older, and returns where it stopped. The posts it passed
   * each move one place right.
   */
  method ShiftLeft(posts: array<Post>, i: nat) returns (j: nat)
    requires i < posts.Length
    modifies posts
    ensures j <= i
    ensures forall k :: 0 <= k < j || i < k < posts.Length ==> posts[k] == old(posts[k])
    ensures posts[j] == old(posts[i])
    ensures forall k :: j < k <= i ==> posts[k] == old(posts[k - 1])
    ensures forall k :: j < k <= i ==> StrLt(posts[k].date, posts[j].date)
    ensures j > 0 ==> NotOlder(posts[j - 1], posts[j])
  {
    j := i;
    while j > 0 && StrLt(posts[j - 1].date, posts[j].date)
      invariant 0 <= j <= i
      invariant forall k :: 0 <= k < j || i < k < posts.Length ==> posts[k] == old(posts[k])
      invariant posts[j] == old(posts[i])
      invariant forall k :: j < k <= i ==> posts[k] == old(posts[k - 1])
      invariant forall k :: j < k <= i ==> StrLt(posts[k].date, posts[j].date)
    {
      posts[j - 1], posts[j] := posts[j], posts[j - 1];
      j := j - 1;
    }
  }

  /** After an insertion step into a newest-first prefix `o[..i]`, the prefix `s[..i + 1]` is newest first. */
  lemma ShiftedSorted(s: seq<Post>, o: seq<Post>, j: nat, i: nat)
    requires j <= i < |o| == |s|
    requires forall p, q :: 0 <= p < q < i ==> NotOlder(o[p], o[q])
    requires forall k :: 0 <= k < j ==> s[k] == o[k]
    requires s[j] == o[i]
    requires forall k :: j < k <= i ==> s[k] == o[k - 1]
    requires forall k :: j < k <= i ==> StrLt(s[k].date, s[j].date)
    requires j > 0 ==> NotOlder(s[j - 1], s[j])
    ensures forall p, q :: 0 <= p < q <= i ==> NotOlder(s[p], s[q])
  {
    forall p, q | 0 <= p < q <= i
      ensures NotOlder(s[p], s[q])
    {
      if q < j || j < p {
      } else if q == j {
        if p < j - 1 {
          NotOlderTransitive(s[p], s[j - 1], s[j]);
        }
      } else if p == j {
        StrLtTotal(s[q].date, s[j].date);
      } else {
        assert p < j < q && s[q] == o[q - 1];
      }
    }
  }

  // ---------------------------------------------------------------- tag counting

  /** The tags of the published posts, in post order (a missing list counts as none). */
  function PublishedTags(posts: seq<Post>): (r: seq<string>)
    ensures forall t :: t in r ==> exists i :: 0 <= i < |posts| && posts[i].published && posts[i].tags.Some? && t in posts[i].tags.value
  {
    if posts == [] then []
    else
      var last := posts[|posts| - 1];
      var rest := PublishedTags(posts[..|posts| - 1]);
      assert forall i :: 0 <= i < |posts| - 1 ==> posts[..|posts| - 1][i] == posts[i];
      rest + (if last.published && last.tags.Some? then last.tags.value else [])
  }

  /** The tag record: keys in first-insertion order and the count per key. */
  datatype TagTable = TagTable(keys: seq<string>, count: map<string, nat>)

  /** The record `tags[t] = (tags[t] ?? 0) + 1` builds over `xs`, one tag at a time. */
  function Tally(xs: seq<string>): (r: TagTable)
    decreases |xs|
  {
    if xs == [] then TagTable([], map[])
    else
      var m := Tally(xs[..|xs| - 1]);
      var t := xs[|xs| - 1];
      Bump(m, t)
  }

  /** One `tags[t] = (tags[t] ?? 0) + 1`: a new key is appended to the key order. */
  function Bump(m: TagTable, t: string): TagTable {
    TagTable(if t in m.count then m.keys else m.keys + [t],
             m.count[t := (if t in m.count then m.count[t] else 0) + 1])
  }

  /** The record is well formed: its keys are listed once each, and they are the counted tags. */
  predicate WellFormed(m: TagTable) {
    && (forall i, j :: 0 <= i < j < |m.keys| ==> m.keys[i] != m.keys[j])
    && (forall t :: t in m.keys ==> t in m.count)
    && (forall t :: t in m.count ==> t in m.keys)
  }

  /** The tally counts every occurrence: each tag's count is its multiplicity, and the keys are the distinct tags. */
  lemma {:induction false} TallyCounts(xs: seq<string>)
    ensures WellFormed(Tally(xs))
    ensures forall t :: t in Tally(xs).count <==> t in xs
    ensures forall t :: t in Tally(xs).count ==> Tally(xs).count[t] == multiset(xs)[t]
    decreases |xs|
  {
    if xs != [] {
      var init := xs[..|xs| - 1];
      var t := xs[|xs| - 1];
      TallyCounts(init);
      assert xs == init + [t];
      assert multiset(xs) == multiset(init) + multiset{t};
      var m := Tally(init);
      if t !in m.count {
        assert multiset(init)[t] == 0;
      }
    }
  }

  /** The tags one post contributes: its list when it is published and tagged, nothing otherwise. */
  function Contribution(p: Post): seq<string> {
    if p.published && p.tags.Some? then p.tags.value else []
  }

  lemma PublishedTagsSnoc(posts: seq<Post>, p: Post)
    ensures PublishedTags(posts + [p]) == PublishedTags(posts) + Contribution(p)
  {
    assert (posts + [p])[..|posts|] == posts;
  }

  lemma TallySnoc(xs: seq<string>, t: string)
    ensures Tally(xs + [t]) == Bump(Tally(xs), t)
  {
    assert (xs + [t])[..|xs|] == xs;
  }

  /** `getAllTags`: the record counting each tag over the published posts. */
  method GetAllTags(posts: seq<Post>) returns (tags: TagTable)
    ensures tags == Tally(PublishedTags(posts))
  {
    tags := TagTable([], map[]);
    for i := 0 to |posts|
      invariant tags == Tally(PublishedTags(posts[..i]))
    {
      var post := posts[i];
      ghost var before := PublishedTags(posts[..i]);
      assert posts[..i + 1] == posts[..i] + [post];
      PublishedTagsSnoc(posts[..i], post);
      if post.published && post.tags.Some? {
        var list := post.tags.value;
        assert before + list[..0] == before;
        for k := 0 to |list|
          invariant tags == Tally(before + list[..k])
        {
          assert before + list[..k + 1] == (before + list[..k]) + [list[k]];
          TallySnoc(before + list[..k], list[k]);
          tags := Bump(tags, list[k]);
        }
        assert list[..|list|] == list;
      } else {
        assert before + Contribution(post) == before;
      }
      assert PublishedTags(posts[..i + 1]) == before + Contribution(post);
    }
    assert posts[..|posts|] == posts;
  }

  /** What `getAllTags` promises: a well-formed record whose keys are the published tags, each counted as often as it occurs. */
  lemma AllTagsCounts(posts: seq<Post>, t: string)
    ensures WellFormed(Tally(PublishedTags(posts)))
    ensures t in Tally(PublishedTags(posts)).count <==> t in PublishedTags(posts)
    ensures t in PublishedTags(posts) ==> Tally(PublishedTags(posts)).count[t] == multiset(PublishedTags(posts))[t]
  {
    TallyCounts(PublishedTags(posts));
  }

  /** Unpublished and untagged posts contribute nothing to the tag count. */
  lemma UnpublishedIgnored(posts: seq<Post>, p: Post)
    requires !p.published || p.tags.None?
    ensures PublishedTags(posts + [p]) == PublishedTags(posts)
  {
    PublishedTagsSnoc(posts, p);
  }

  /** A published post adds its tags, duplicates included. */
  lemma PublishedAdds(posts: seq<Post>, p: Post)
    requires p.published && p.tags.Some?
    ensures multiset(PublishedTags(posts + [p])) == multiset(PublishedTags(posts)) + multiset(p.tags.value)
  {
    PublishedTagsSnoc(posts, p);
  }

  /** `sortTagsByCount`: the keys, most used first (`tags[b] - tags[a]`), ties in key order. */
  function SortTagsByCount(tags: TagTable): (r: seq<string>)
    ensures multiset(r) == multiset(tags.keys)
    ensures forall i, j :: 0 <= i < j < |r| && r[i] in tags.count && r[j] in tags.count ==> tags.count[r[i]] >= tags.count[r[j]]
    ensures forall c :: JsLib.WithKey(r, CountKey(tags), c) == JsLib.WithKey(tags.keys, CountKey(tags), c)
  {
    var key := CountKey(tags);
    var r := JsLib.SortDesc(tags.keys, key);
    assert forall i :: 0 <= i < |r| && r[i] in tags.count ==> key(r[i]) == tags.count[r[i]];
    JsLib.SortDescStableAll(tags.keys, key);
    r
  }

  /** The sort key of `sortTagsByCount`: a tag's count. */
  function CountKey(tags: TagTable): (key: string -> int)
    ensures forall t :: t in tags.count ==> key(t) == tags.count[t] as int
  {
    (t: string) => if t in tags.count then tags.count[t] as int else 0
  }

  // ---------------------------------------------------------------- tag slugs

  /** `tags.map(slug)`. */
  function Slugs(tags: seq<string>, slug: string -> string): (r: seq<string>)
    ensures |r| == |tags| && forall i :: 0 <= i < |tags| ==> r[i] == slug(tags[i])
  {
    if tags == [] then [] else [slug(tags[0])] + Slugs(tags[1..], slug)
  }

  /** The test `getPostsByTagSlug` applies: the post has tags and one of their slugs is `tag`. */
  predicate HasTagSlug(p: Post, tag: string, slug: string -> string) {
    p.tags.Some? && tag in Slugs(p.tags.value, slug)
  }

  lemma HasTagSlugIff(p: Post, tag: string, slug: string -> string)
    ensures HasTagSlug(p, tag, slug) <==> p.tags.Some? && exists i :: 0 <= i < |p.tags.value| && slug(p.tags.value[i]) == tag
  {
    if p.tags.Some? && tag in Slugs(p.tags.value, slug) {
      var i :| 0 <= i < |Slugs(p.tags.value, slug)| && Slugs(p.tags.value, slug)[i] == tag;
      assert slug(p.tags.value[i]) == tag;
    }
  }

  /** `getPostsByTagSlug`: the posts with a tag whose slug is `tag`, in order. */
  function PostsByTagSlug(posts: seq<Post>, tag: string, slug: string -> string): (r: seq<Post>)
    ensures JsLib.IsSubsequence(r, posts)
    ensures forall i :: 0 <= i < |r| ==> r[i].tags.Some? && HasTagSlug(r[i], tag, slug)
    ensures forall p :: p in r <==> p in posts && HasTagSlug(p, tag, slug)
  {
    var keep := (p: Post) => HasTagSlug(p, tag, slug);
    JsLib.FilterIsSubsequence(posts, keep);
    JsLib.FilterMembers(posts, keep);
    JsLib.Filter(posts, keep)
  }
}
