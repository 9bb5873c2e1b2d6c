/**
 * Blog posts stored as MDX files: the read-time estimate, the read-time
 * cache kept beside the posts, the slug taken from the file path, and the
 * listing operations (newest first, limited, featured, by slug).
 *
 * The posts directory is a map from relative path to its parsed document
 * (front matter plus body): front-matter parsing and printing are not
 * modelled, so rewriting a file means storing the updated document. The
 * cache file is `None` while it does not exist. Dates are turned into
 * timestamps by the parameter `toTime`, standing for `new Date(d).getTime()`.
 */
module Mdx {
  import opened Wrappers
  import JsLib

  const WordsPerMinute: nat := 200

  // ---------------------------------------------------------------- read time

  /** `s.split(/\s+/)`: the pieces between maximal runs of white space (a leading or trailing run gives an empty piece). */
  function Pieces(s: string): (r: seq<string>)
    ensures |r| >= 1
    decreases |s|
  {
    if s == [] then [""]
    else if JsLib.IsSpace(s[0]) then
      var rest := JsLib.TrimStart(s);
      [""] + Pieces(rest)
    else
      var p := Pieces(s[1..]);
      [[s[0]] + p[0]] + p[1..]
  }

  /** No piece contains white space. */
  lemma {:induction false} PiecesHaveNoSpace(s: string)
    ensures forall k :: 0 <= k < |Pieces(s)| ==> forall i :: 0 <= i < |Pieces(s)[k]| ==> !JsLib.IsSpace(Pieces(s)[k][i])
    decreases |s|
  {
    if s != [] {
      if JsLib.IsSpace(s[0]) {
        var rest := JsLib.TrimStart(s);
        PiecesHaveNoSpace(rest);
      } else {
        PiecesHaveNoSpace(s[1..]);
        var p := Pieces(s[1..]);
        assert Pieces(s) == [[s[0]] + p[0]] + p[1..];
        forall k | 0 <= k < |Pieces(s)|
          ensures forall i :: 0 <= i < |Pieces(s)[k]| ==> !JsLib.IsSpace(Pieces(s)[k][i])
        {
          if k == 0 {
            forall i | 0 <= i < |Pieces(s)[0]| ensures !JsLib.IsSpace(Pieces(s)[0][i]) {
              if i > 0 {
                assert Pieces(s)[0][i] == p[0][i - 1];
              }
            }
          } else {
            assert Pieces(s)[k] == p[k];
          }
        }
      }
    }
  }

  /** The characters of `s` that are not white space, in order. */
  function NonSpace(s: string): string {
    if s == [] then [] else (if JsLib.IsSpace(s[0]) then [] else [s[0]]) + NonSpace(s[1..])
  }

  function Concat(xs: seq<string>): string {
    if xs == [] then [] else xs[0] + Concat(xs[1..])
  }

  lemma {:induction false} NonSpaceSkipsLeading(s: string)
    ensures NonSpace(JsLib.TrimStart(s)) == NonSpace(s)
  {
    if s != [] && JsLib.IsSpace(s[0]) {
      NonSpaceSkipsLeading(s[1..]);
    }
  }

  /** Splitting drops exactly the white space: the pieces put together are the non-space characters of `s`. */
  lemma {:induction false} PiecesKeepText(s: string)
    ensures Concat(Pieces(s)) == NonSpace(s)
    decreases |s|
  {
    if s != [] {
      if JsLib.IsSpace(s[0]) {
        var rest := JsLib.TrimStart(s);
        PiecesKeepText(rest);
        NonSpaceSkipsLeading(s);
        assert Concat([""] + Pieces(rest)) == "" + Concat(Pieces(rest)) by {
          assert ([""] + Pieces(rest))[1..] == Pieces(rest);
        }
        assert "" + Concat(Pieces(rest)) == Concat(Pieces(rest));
      } else {
        PiecesKeepText(s[1..]);
        var p := Pieces(s[1..]);
        var q := [[s[0]] + p[0]] + p[1..];
        assert q[1..] == p[1..];
        assert Concat(p) == p[0] + Concat(p[1..]);
        assert Concat(q) == ([s[0]] + p[0]) + Concat(p[1..]);
      }
    }
  }

  /** How many maximal runs of white space start in `s`, given whether the character before it was white space. */
  function RunStarts(afterSpace: bool, s: string): nat
    decreases |s|
  {
    if s == [] then 0
    else (if JsLib.IsSpace(s[0]) && !afterSpace then 1 else 0) + RunStarts(JsLib.IsSpace(s[0]), s[1..])
  }

  /** The number of maximal runs of white space in `s`. */
  function SpaceRuns(s: string): nat {
    RunStarts(false, s)
  }

  /** Continuing a run of white space, the runs still to come are those after it. */
  lemma {:induction false} RunStartsAfterSpace(t: string)
    ensures RunStarts(true, t) == SpaceRuns(JsLib.TrimStart(t))
  {
    if t != [] && JsLib.IsSpace(t[0]) {
      RunStartsAfterSpace(t[1..]);
    }
  }

  /** Each maximal run of white space separates two pieces, so there is one piece more than there are runs. */
  lemma {:induction false} PiecesCount(s: string)
    ensures |Pieces(s)| == 1 + SpaceRuns(s)
    decreases |s|
  {
    if s != [] {
      if JsLib.IsSpace(s[0]) {
        PiecesCount(JsLib.TrimStart(s));
        RunStartsAfterSpace(s[1..]);
      } else {
        PiecesCount(s[1..]);
      }
    }
  }

  /** The word count: one more than the runs of white space, so never below 1 (the empty text counts as one word). */
  function WordCount(content: string): (n: nat)
    ensures n == 1 + SpaceRuns(content)
    ensures n >= 1
  {
    PiecesCount(content);
    |Pieces(content)|
  }

  /** `Math.ceil(count / 200)`. */
  function CeilMinutes(count: nat): (m: nat)
    ensures (m - 1) * WordsPerMinute < count <= m * WordsPerMinute
  {
    (count + WordsPerMinute - 1) / WordsPerMinute
  }

  function ReadMinutes(content: string): (m: nat)
    ensures m >= 1
  {
    CeilMinutes(WordCount(content))
  }

  /** `calculateReadTime`: the minutes followed by " min". */
  function ReadTime(content: string): (r: string)
    ensures JsLib.EndsWith(r, " min") && |r| >= 5
    ensures forall i :: 0 <= i < |r| - 4 ==> JsLib.IsDigit(r[i])
    ensures JsLib.DigitsValue(r[..|r| - 4]) == ReadMinutes(content) >= 1
  {
    var digits := JsLib.NatToString(ReadMinutes(content));
    var r := digits + " min";
    assert r[..|r| - 4] == digits;
    JsLib.NatToStringRoundTrip(ReadMinutes(content));
    r
  }

  // ---------------------------------------------------------------- documents

  /** The front matter fields the site uses; `readTime` may be missing. */
  datatype FrontMatter = FrontMatter(title: string, date: string, description: string, imageUrl: string,
                                     featured: bool, readTime: Option<string>)

  /** A parsed MDX file. */
  datatype Doc = Doc(data: FrontMatter, content: string)

  /** What `getPost` returns. */
  datatype PostData = PostData(title: string, date: string, description: string, imageUrl: string,
                               featured: bool, readTime: string, filepath: string, content: string, slug: string)

  predicate Truthy(v: Option<string>) {
    v.Some? && v.value != ""
  }

  /** `filepath.replace(/\.mdx$/, '')`: one trailing `.mdx` removed. */
  function Slug(filepath: string): (r: string)
    ensures JsLib.EndsWith(filepath, ".mdx") ==> r + ".mdx" == filepath
    ensures !JsLib.EndsWith(filepath, ".mdx") ==> r == filepath
  {
    if JsLib.EndsWith(filepath, ".mdx") then filepath[..|filepath| - 4] else filepath
  }

  /** The slug of `name.mdx` is `name`, whatever `name` is (even one ending in `.mdx` itself). */
  lemma SlugOfMdx(name: string)
    ensures Slug(name + ".mdx") == name
  {
    var f := name + ".mdx";
    assert f[|f| - 4..] == ".mdx";
    assert f[..|f| - 4] == name;
  }

  /** Where the read time comes from: the front matter, the cache, or a fresh computation. */
  datatype ReadTimeSource = FromFrontMatter(value: string) | FromCache(value: string) | Computed(value: string)

  /** The choice `getPost` makes: a truthy front-matter value first, then a truthy cache entry, else compute. */
  function ResolveReadTime(fm: Option<string>, cached: Option<string>, content: string): (src: ReadTimeSource)
    ensures src.value != ""
    ensures Truthy(fm) <==> src.FromFrontMatter?
    ensures src.FromFrontMatter? ==> src.value == fm.value
    ensures src.FromCache? <==> !Truthy(fm) && Truthy(cached)
    ensures src.FromCache? ==> src.value == cached.value
    ensures src.Computed? ==> src.value == ReadTime(content)
  {
    if Truthy(fm) then FromFrontMatter(fm.value)
    else if Truthy(cached) then FromCache(cached.value)
    else Computed(ReadTime(content))
  }

  function Lookup(m: map<string, string>, k: string): Option<string> {
    if k in m then Some(m[k]) else None
  }

  /** The returned record: the front matter, then content, path, slug and read time. */
  function MakePost(filepath: string, d: Doc, readTime: string): (p: PostData)
    ensures p.filepath == filepath && p.slug == Slug(filepath) && p.readTime == readTime
    ensures p.content == d.content && p.date == d.data.date && p.featured == d.data.featured
  {
    PostData(d.data.title, d.data.date, d.data.description, d.data.imageUrl, d.data.featured,
             readTime, filepath, d.content, Slug(filepath))
  }

  /** The file `filepath` after `getPost` added `readTime` to its front matter. */
  function WithReadTime(d: Doc, readTime: string): Doc {
    Doc(d.data.(readTime := Some(readTime)), d.content)
  }

  /** The read time `getPost` settles on for an existing file, from the files and cache as given. */
  function Resolved(path: string, files: map<string, Doc>, cache: map<string, string>): (src: ReadTimeSource)
    requires path in files
  {
    ResolveReadTime(files[path].data.readTime, Lookup(cache, path), files[path].content)
  }

  /** The post `getPost` returns for an existing file, from the files and cache as given. */
  function ReadOne(path: string, files: map<string, Doc>, cache: map<string, string>): (p: PostData)
    requires path in files
    ensures p == MakePost(path, files[path], Resolved(path, files, cache).value)
    ensures p.readTime != ""
  {
    MakePost(path, files[path], Resolved(path, files, cache).value)
  }

  /** Reading every path against the files and cache as they were before the first read: one post per path, in order. */
  function ReadAll(paths: seq<string>, files: map<string, Doc>, cache: map<string, string>): (ps: seq<PostData>)
    requires forall j :: 0 <= j < |paths| ==> paths[j] in files
    ensures |ps| == |paths|
    ensures forall j :: 0 <= j < |paths| ==> ps[j] == ReadOne(paths[j], files, cache)
  {
    if paths == [] then [] else [ReadOne(paths[0], files, cache)] + ReadAll(paths[1..], files, cache)
  }

  lemma ReadAllSnoc(paths: seq<string>, p: string, files: map<string, Doc>, cache: map<string, string>)
    requires forall j :: 0 <= j < |paths| ==> paths[j] in files
    requires p in files
    ensures ReadAll(paths + [p], files, cache) == ReadAll(paths, files, cache) + [ReadOne(p, files, cache)]
  {
    var xs := paths + [p];
    assert forall j :: 0 <= j < |paths| ==> xs[j] == paths[j];
  }

  /** The posts directory once the files in `read` have been given their read time (those that had one keep it). */
  function Stamp(files: map<string, Doc>, cache: map<string, string>, read: seq<string>): (r: map<string, Doc>)
    ensures r.Keys == files.Keys
  {
    map k | k in files :: if k in read then WithReadTime(files[k], Resolved(k, files, cache).value) else files[k]
  }

  /** The position of the first path with no file, or `|paths|` when every file exists. */
  function FirstMissing(paths: seq<string>, files: map<string, Doc>): (j: nat)
    ensures j <= |paths|
    ensures forall i :: 0 <= i < j ==> paths[i] in files
    ensures j < |paths| ==> paths[j] !in files
    ensures j == |paths| <==> forall i :: 0 <= i < |paths| ==> paths[i] in files
  {
    if paths == [] || paths[0] !in files then 0
    else
      var j := FirstMissing(paths[1..], files);
      assert forall i :: 1 <= i < |paths| ==> paths[i] == paths[1..][i - 1];
      1 + j
  }

  /** Scanning from the front: a present file at `i` moves the first missing one past `i`; a missing one is it. */
  lemma FirstMissingAt(paths: seq<string>, files: map<string, Doc>, i: nat)
    requires i < |paths| && i <= FirstMissing(paths, files)
    ensures paths[i] in files ==> i + 1 <= FirstMissing(paths, files)
    ensures paths[i] !in files ==> i == FirstMissing(paths, files)
  {
  }

  lemma TakeOneMore<T>(s: seq<T>, i: nat)
    requires i < |s|
    ensures s[..i + 1] == s[..i] + [s[i]]
  {
  }

  /** Before any read, the directory is as it was. */
  lemma StampNothing(files: map<string, Doc>, cache: map<string, string>)
    ensures Stamp(files, cache, []) == files
  {
  }

  /** Whether `getPost` computes the read time of `path`: neither its front matter nor the cache has one. */
  predicate Computes(path: string, files: map<string, Doc>, cache: map<string, string>) {
    path in files && Resolved(path, files, cache).Computed?
  }

  /** The cache entry for `k` once the files in `read` have been read: a computed read time, or the entry that was there. */
  function CacheEntry(k: string, read: seq<string>, files: map<string, Doc>, cache: map<string, string>): (e: Option<string>)
    ensures k !in read ==> e == Lookup(cache, k)
  {
    if k in read && Computes(k, files, cache) then Some(ReadTime(files[k].content)) else Lookup(cache, k)
  }

  /** Whether reading the files in `read` computes some read time, and so writes the cache file. */
  predicate AnyComputed(read: seq<string>, files: map<string, Doc>, cache: map<string, string>) {
    exists j :: 0 <= j < |read| && Computes(read[j], files, cache)
  }

  /** After the files in `read` were read, a file read before resolves to the read time it was given; any other as before. */
  lemma ResolvedAfter(files0: map<string, Doc>, cache0: map<string, string>, read: seq<string>, p: string,
                      files: map<string, Doc>, cache: map<string, string>)
    requires p in files0
    requires files == Stamp(files0, cache0, read)
    requires forall k :: Lookup(cache, k) == CacheEntry(k, read, files0, cache0)
    ensures p in files && files[p].content == files0[p].content
    ensures p in read ==> Resolved(p, files, cache) == FromFrontMatter(Resolved(p, files0, cache0).value)
    ensures p !in read ==> files[p] == files0[p] && Resolved(p, files, cache) == Resolved(p, files0, cache0)
  {
    if p !in read {
      assert Lookup(cache, p) == Lookup(cache0, p);
    }
  }

  /** Adding one path to the files read: the files it stamps. */
  lemma StampStep(files0: map<string, Doc>, cache0: map<string, string>, read: seq<string>, p: string)
    requires p in files0
    ensures Stamp(files0, cache0, read)[p := WithReadTime(files0[p], Resolved(p, files0, cache0).value)]
            == Stamp(files0, cache0, read + [p])
  {
    var after := read + [p];
    assert forall k :: k in after <==> k in read || k == p;
  }

  /** Giving a file the read time its front matter already has changes nothing. */
  lemma WithOwnReadTime(d: Doc)
    requires Truthy(d.data.readTime)
    ensures WithReadTime(d, d.data.readTime.value) == d
  {
  }

  /** Adding one path to the files read leaves every other path's cache entry alone. */
  lemma CacheEntryOther(k: string, read: seq<string>, p: string, files0: map<string, Doc>, cache0: map<string, string>)
    requires k != p
    ensures CacheEntry(k, read + [p], files0, cache0) == CacheEntry(k, read, files0, cache0)
  {
    assert k in read + [p] <==> k in read;
  }

  /** The cache entry of the path just read. */
  lemma CacheEntrySelf(read: seq<string>, p: string, files0: map<string, Doc>, cache0: map<string, string>)
    ensures p in read || !Computes(p, files0, cache0) ==> CacheEntry(p, read + [p], files0, cache0) == CacheEntry(p, read, files0, cache0)
    ensures Computes(p, files0, cache0) ==> CacheEntry(p, read + [p], files0, cache0) == Some(Resolved(p, files0, cache0).value)
  {
    assert p in read + [p];
  }

  /** Adding one path to the files read: the cache entries. */
  lemma CacheStep(files0: map<string, Doc>, cache0: map<string, string>, read: seq<string>, p: string, cache: map<string, string>)
    requires p in files0
    requires forall k :: Lookup(cache, k) == CacheEntry(k, read, files0, cache0)
    ensures p !in read && Computes(p, files0, cache0) ==>
              forall k :: Lookup(cache[p := Resolved(p, files0, cache0).value], k) == CacheEntry(k, read + [p], files0, cache0)
    ensures !(p !in read && Computes(p, files0, cache0)) ==> forall k :: Lookup(cache, k) == CacheEntry(k, read + [p], files0, cache0)
  {
    CacheEntrySelf(read, p, files0, cache0);
    if p !in read && Computes(p, files0, cache0) {
      var c := cache[p := Resolved(p, files0, cache0).value];
      forall k ensures Lookup(c, k) == CacheEntry(k, read + [p], files0, cache0) {
        if k != p {
          CacheEntryOther(k, read, p, files0, cache0);
          assert Lookup(c, k) == Lookup(cache, k);
        }
      }
    } else {
      forall k ensures Lookup(cache, k) == CacheEntry(k, read + [p], files0, cache0) {
        if k != p {
          CacheEntryOther(k, read, p, files0, cache0);
        }
      }
    }
  }

  /** Adding one path to the files read: whether any read time was computed. */
  lemma AnyComputedStep(files0: map<string, Doc>, cache0: map<string, string>, read: seq<string>, p: string)
    ensures AnyComputed(read + [p], files0, cache0) <==> AnyComputed(read, files0, cache0) || Computes(p, files0, cache0)
  {
    var after := read + [p];
    if AnyComputed(read, files0, cache0) {
      var j :| 0 <= j < |read| && Computes(read[j], files0, cache0);
      assert after[j] == read[j];
    }
    if Computes(p, files0, cache0) {
      assert after[|read|] == p;
    }
    if AnyComputed(after, files0, cache0) && !Computes(p, files0, cache0) {
      var j :| 0 <= j < |after| && Computes(after[j], files0, cache0);
      assert j < |read| && after[j] == read[j];
    }
  }

  /** A path read again was computed the first time, if at all. */
  lemma ComputedBefore(files0: map<string, Doc>, cache0: map<string, string>, read: seq<string>, p: string)
    requires p in read && Computes(p, files0, cache0)
    ensures AnyComputed(read, files0, cache0)
  {
    var j :| 0 <= j < |read| && read[j] == p;
  }

  /**
   * One more `getPost` of an existing file, after the files in `read` were read:
   * it returns what reading it first would have, and leaves the files and the
   * cache as if `read + [p]` had been read.
   */
  lemma ReadStep(files0: map<string, Doc>, cache0: map<string, string>, read: seq<string>, p: string,
                 files: map<string, Doc>, cache: map<string, string>)
    requires p in files0
    requires files == Stamp(files0, cache0, read)
    requires forall k :: Lookup(cache, k) == CacheEntry(k, read, files0, cache0)
    ensures p in files
    ensures MakePost(p, files[p], Resolved(p, files, cache).value) == ReadOne(p, files0, cache0)
    ensures Resolved(p, files, cache).FromFrontMatter? ==> files == Stamp(files0, cache0, read + [p])
    ensures files[p := WithReadTime(files[p], Resolved(p, files, cache).value)] == Stamp(files0, cache0, read + [p])
    ensures Resolved(p, files, cache).Computed? <==> p !in read && Computes(p, files0, cache0)
    ensures Resolved(p, files, cache).Computed? ==>
              forall k :: Lookup(cache[p := Resolved(p, files, cache).value], k) == CacheEntry(k, read + [p], files0, cache0)
    ensures !Resolved(p, files, cache).Computed? ==> forall k :: Lookup(cache, k) == CacheEntry(k, read + [p], files0, cache0)
    ensures AnyComputed(read + [p], files0, cache0) <==> AnyComputed(read, files0, cache0) || Resolved(p, files, cache).Computed?
  {
    ResolvedAfter(files0, cache0, read, p, files, cache);
    var src0 := Resolved(p, files0, cache0);
    var src := Resolved(p, files, cache);
    StampStep(files0, cache0, read, p);
    if p in read {
      assert files[p] == WithReadTime(files0[p], src0.value);
      WithOwnReadTime(files[p]);
      assert files[p := WithReadTime(files[p], src.value)] == files;
    } else if src.FromFrontMatter? {
      WithOwnReadTime(files0[p]);
      assert files[p := WithReadTime(files[p], src.value)] == files;
    }
    CacheStep(files0, cache0, read, p, cache);
    AnyComputedStep(files0, cache0, read, p);
    if p in read && Computes(p, files0, cache0) {
      ComputedBefore(files0, cache0, read, p);
    }
  }

  /** Every file that was read now carries a read time in its front matter. */
  lemma StampedHaveReadTime(files: map<string, Doc>, cache: map<string, string>, read: seq<string>, k: string)
    requires k in files && k in read
    ensures Truthy(Stamp(files, cache, read)[k].data.readTime)
  {
  }

  /** Reading the same files again returns the same posts, computes nothing and rewrites no file. */
  lemma RereadIsStable(files: map<string, Doc>, cache: map<string, string>, read: seq<string>, cache2: map<string, string>, k: string)
    requires k in files && k in read
    ensures Resolved(k, Stamp(files, cache, read), cache2) == FromFrontMatter(Resolved(k, files, cache).value)
    ensures ReadOne(k, Stamp(files, cache, read), cache2) == ReadOne(k, files, cache)
    ensures WithReadTime(Stamp(files, cache, read)[k], Resolved(k, files, cache).value) == Stamp(files, cache, read)[k]
  {
  }

  // ---------------------------------------------------------------- ordering and selection

  /** The sort in `getPosts`: `(a, b) => time(b.date) - time(a.date)`, newest first; posts with equal timestamps keep their order. */
  function SortByDateDesc(ps: seq<PostData>, toTime: string -> int): (r: seq<PostData>)
    ensures forall i, j :: 0 <= i < j < |r| ==> toTime(r[i].date) >= toTime(r[j].date)
    ensures multiset(r) == multiset(ps)
    ensures forall t :: JsLib.WithKey(r, DateKey(toTime), t) == JsLib.WithKey(ps, DateKey(toTime), t)
  {
    var key := DateKey(toTime);
    var r := JsLib.SortDesc(ps, key);
    assert forall i :: 0 <= i < |r| ==> key(r[i]) == toTime(r[i].date);
    JsLib.SortDescStableAll(ps, key);
    r
  }

  /** The sort key of `getPosts`: a post's date as a timestamp. */
  function DateKey(toTime: string -> int): (key: PostData -> int)
    ensures forall p :: key(p) == toTime(p.date)
  {
    (p: PostData) => toTime(p.date)
  }

  /** `limit === -1 ? posts : posts.slice(0, limit)`. */
  function TakeLimit<T>(xs: seq<T>, limit: int): (r: seq<T>)
    ensures limit == -1 ==> r == xs
    ensures 0 <= limit ==> r == xs[..if limit < |xs| then limit else |xs|]
    ensures limit < -1 ==> r == xs[..JsLib.SliceIndex(limit, |xs|)]
  {
    if limit == -1 then xs else JsLib.Slice(xs, 0, limit)
  }

  /** `posts.find(post => post.slug === slug)`. */
  function FindBySlug(ps: seq<PostData>, slug: string): (r: Option<PostData>)
    ensures r.None? <==> forall i :: 0 <= i < |ps| ==> ps[i].slug != slug
    ensures r.Some? ==> r.value in ps && r.value.slug == slug
    ensures r.Some? ==> exists i :: 0 <= i < |ps| && ps[i] == r.value && forall j :: 0 <= j < i ==> ps[j].slug != slug
  {
    if ps == [] then None
    else if ps[0].slug == slug then Some(ps[0])
    else
      var r := FindBySlug(ps[1..], slug);
      assert forall i :: 1 <= i < |ps| ==> ps[i] == ps[1..][i - 1];
      if r.Some? then
        var k :| 0 <= k < |ps[1..]| && ps[1..][k] == r.value && forall j :: 0 <= j < k ==> ps[1..][j].slug != slug;
        assert ps[k + 1] == r.value && forall j :: 0 <= j < k + 1 ==> ps[j].slug != slug;
        r
      else r
  }

  function IsFeatured(p: PostData): bool {
    p.featured
  }

  /** `getFeaturedPosts` after reading: the featured posts, in order, `slice(0, limit)`. */
  function FeaturedOf(ps: seq<PostData>, limit: int): (r: seq<PostData>)
    ensures |r| <= |ps|
    ensures forall i :: 0 <= i < |r| ==> r[i].featured && r[i] in ps
    ensures |r| <= |JsLib.Filter(ps, IsFeatured)| && r == JsLib.Filter(ps, IsFeatured)[..|r|]
    ensures 0 <= limit ==> |r| == if limit < |JsLib.Filter(ps, IsFeatured)| then limit else |JsLib.Filter(ps, IsFeatured)|
    ensures limit < 0 ==> |r| == JsLib.SliceIndex(limit, |JsLib.Filter(ps, IsFeatured)|)
    ensures JsLib.IsSubsequence(r, JsLib.Filter(ps, IsFeatured))
  {
    var f := JsLib.Filter(ps, IsFeatured);
    var r := JsLib.Slice(f, 0, limit);
    JsLib.FilterMembers(ps, IsFeatured);
    PrefixIsSubsequence(f, |r|);
    r
  }

  lemma {:induction false} PrefixIsSubsequence<T>(xs: seq<T>, k: nat)
    requires k <= |xs|
    ensures JsLib.IsSubsequence(xs[..k], xs)
  {
    if k > 0 {
      PrefixIsSubsequence(xs[1..], k - 1);
      assert xs[..k][1..] == xs[1..][..k - 1];
    }
  }

  /** A featured post is among the featured ones when fewer than `limit` featured posts come before it. */
  lemma FeaturedComplete(ps: seq<PostData>, limit: int, i: int)
    requires 0 <= i < |ps| && ps[i].featured
    requires |JsLib.Filter(ps[..i], IsFeatured)| < limit
    ensures ps[i] in FeaturedOf(ps, limit)
  {
    var before := JsLib.Filter(ps[..i], IsFeatured);
    assert ps == ps[..i] + ps[i..];
    JsLib.FilterAppend(ps[..i], ps[i..], IsFeatured);
    JsLib.FilterFrom(ps, i, IsFeatured);
    var f := JsLib.Filter(ps, IsFeatured);
    assert f == before + ([ps[i]] + JsLib.Filter(ps[i + 1..], IsFeatured));
    assert f[|before|] == ps[i];
    var r := FeaturedOf(ps, limit);
    assert |before| < |r|;
    assert r[|before|] == ps[i];
  }

  // ---------------------------------------------------------------- the store

  /** The posts directory and the read-time cache file. */
  class PostStore {
    var files: map<string, Doc>
    var cacheFile: Option<map<string, string>>

    constructor (files: map<string, Doc>, cacheFile: Option<map<string, string>>)
      ensures this.files == files && this.cacheFile == cacheFile
    {
      this.files := files;
      this.cacheFile := cacheFile;
    }

    /** `loadCache`: the saved entries, or none while the file does not exist. */
    function LoadCache(): map<string, string>
      reads this
    {
      cacheFile.GetOr(map[])
    }

    /**
     * `getPost`: reads the file; when its front matter has no read time, takes
     * it from the cache or computes and caches it, and rewrites the file with
     * the read time in its front matter. Reading a missing file throws.
     */
    method GetPost(filepath: string) returns (r: Result<PostData, string>)
      modifies this
      ensures files.Keys == old(files).Keys
      ensures filepath !in old(files) ==> r == Err("ENOENT") && unchanged(this)
      ensures filepath in old(files) ==>
        var d := old(files)[filepath];
        var src := ResolveReadTime(d.data.readTime, Lookup(old(LoadCache()), filepath), d.content);
        && r == Ok(MakePost(filepath, d, src.value))
        && (src.FromFrontMatter? ==> files == old(files) && cacheFile == old(cacheFile))
        && (!src.FromFrontMatter? ==> files == old(files)[filepath := WithReadTime(d, src.value)])
        && (src.FromCache? ==> cacheFile == old(cacheFile))
        && (src.Computed? ==> cacheFile == Some(old(LoadCache())[filepath := src.value]))
    {
      if filepath !in files {
        return Err("ENOENT");
      }
      var doc := files[filepath];
      var data := doc.data;
      var readTime := data.readTime;
      var shouldUpdateFrontmatter := false;
      if !Truthy(readTime) {
        var cache := LoadCache();
        if filepath in cache && cache[filepath] != "" {
          readTime := Some(cache[filepath]);
        } else {
          readTime := Some(ReadTime(doc.content));
          cache := cache[filepath := readTime.value];
          cacheFile := Some(cache);
        }
        data := data.(readTime := readTime);
        shouldUpdateFrontmatter := true;
      }
      if shouldUpdateFrontmatter {
        files := files[filepath := Doc(data, doc.content)];
      }
      r := Ok(MakePost(filepath, doc, readTime.value));
    }

    /** After one successful `getPost` the file carries its read time, so a second call writes nothing and returns the same post. */
    method GetPostTwice(filepath: string) returns (first: Result<PostData, string>, second: Result<PostData, string>)
      modifies this
      ensures first == second
      ensures filepath in old(files) ==> filepath in files && Truthy(files[filepath].data.readTime)
    {
      first := GetPost(filepath);
      var filesAfter := files;
      var cacheAfter := cacheFile;
      second := GetPost(filepath);
      assert files == filesAfter && cacheFile == cacheAfter;
    }

    /**
     * The store once the files in `read` have been read, starting from the
     * files `files0` and the cache file `cacheFile0`: each of them carries its
     * read time, the computed ones are in the cache, and the cache file is
     * untouched unless one was computed.
     */
    ghost predicate HasRead(read: seq<string>, files0: map<string, Doc>, cacheFile0: Option<map<string, string>>)
      reads this
    {
      var cache0 := cacheFile0.GetOr(map[]);
      && files == Stamp(files0, cache0, read)
      && (forall k :: Lookup(LoadCache(), k) == CacheEntry(k, read, files0, cache0))
      && (if AnyComputed(read, files0, cache0) then cacheFile.Some? else cacheFile == cacheFile0)
    }

    /** One `getPost` in the course of reading: the post reading it first would give, and the files in `read + [p]` read. */
    method ReadNext(p: string, ghost read: seq<string>, ghost files0: map<string, Doc>, ghost cacheFile0: Option<map<string, string>>)
      returns (r: Result<PostData, string>)
      modifies this
      requires HasRead(read, files0, cacheFile0)
      ensures r.Err? <==> p !in files0
      ensures r.Err? ==> r == Err("ENOENT") && unchanged(this)
      ensures r.Ok? ==> r.value == ReadOne(p, files0, cacheFile0.GetOr(map[])) && HasRead(read + [p], files0, cacheFile0)
    {
      if p in files0 {
        ReadStep(files0, cacheFile0.GetOr(map[]), read, p, files, LoadCache());
      }
      r := GetPost(p);
    }

    /** `paths.map(getPost)`: the posts in path order; the first missing file stops the reading. */
    method ReadPaths(paths: seq<string>) returns (r: Result<seq<PostData>, string>)
      modifies this
      ensures r.Err? <==> exists j :: 0 <= j < |paths| && paths[j] !in old(files)
      ensures r.Ok? ==> r.value == ReadAll(paths, old(files), old(LoadCache())) && HasRead(paths, old(files), old(cacheFile))
      ensures r.Err? ==> r == Err("ENOENT") && HasRead(paths[..FirstMissing(paths, old(files))], old(files), old(cacheFile))
    {
      ghost var files0, cacheFile0 := files, cacheFile;
      ghost var cache0 := LoadCache();
      var posts: seq<PostData> := [];
      StampNothing(files0, cache0);
      assert HasRead(paths[..0], files0, cacheFile0);
      for i := 0 to |paths|
        invariant i <= FirstMissing(paths, files0)
        invariant posts == ReadAll(paths[..i], files0, cache0)
        invariant HasRead(paths[..i], files0, cacheFile0)
      {
        TakeOneMore(paths, i);
        FirstMissingAt(paths, files0, i);
        var p := ReadNext(paths[i], paths[..i], files0, cacheFile0);
        if p.Err? {
          assert HasRead(paths[..i], files0, cacheFile0);
          return Err(p.error);
        }
        ReadAllSnoc(paths[..i], paths[i], files0, cache0);
        posts := posts + [p.value];
      }
      assert paths[..|paths|] == paths;
      r := Ok(posts);
    }

    /** `getPosts(limit)`: every path read in order, sorted newest first, then limited. */
    method GetPosts(paths: seq<string>, limit: int, toTime: string -> int) returns (r: Result<seq<PostData>, string>)
      modifies this
      ensures r.Err? <==> exists j :: 0 <= j < |paths| && paths[j] !in old(files)
      ensures r.Ok? ==> r.value == TakeLimit(SortByDateDesc(ReadAll(paths, old(files), old(LoadCache())), toTime), limit)
      ensures r.Ok? ==> HasRead(paths, old(files), old(cacheFile))
      ensures r.Err? ==> r == Err("ENOENT") && HasRead(paths[..FirstMissing(paths, old(files))], old(files), old(cacheFile))
    {
      var all := ReadPaths(paths);
      if all.Err? {
        return Err(all.error);
      }
      r := Ok(TakeLimit(SortByDateDesc(all.value, toTime), limit));
    }

    /** `getPostBySlug`: the first of all posts, newest first, whose slug matches. */
    method GetPostBySlug(paths: seq<string>, slug: string, toTime: string -> int) returns (r: Result<Option<PostData>, string>)
      modifies this
      ensures r.Err? <==> exists j :: 0 <= j < |paths| && paths[j] !in old(files)
      ensures r.Ok? ==> r.value == FindBySlug(SortByDateDesc(ReadAll(paths, old(files), old(LoadCache())), toTime), slug)
      ensures r.Ok? ==> HasRead(paths, old(files), old(cacheFile))
      ensures r.Err? ==> r == Err("ENOENT") && HasRead(paths[..FirstMissing(paths, old(files))], old(files), old(cacheFile))
    {
      var all := GetPosts(paths, -1, toTime);
      if all.Err? {
        return Err(all.error);
      }
      r := Ok(FindBySlug(all.value, slug));
    }

    /** `getFeaturedPosts(limit)`: the featured posts among all posts, newest first, `slice(0, limit)`. */
    method GetFeaturedPosts(paths: seq<string>, limit: int, toTime: string -> int) returns (r: Result<seq<PostData>, string>)
      modifies this
      ensures r.Err? <==> exists j :: 0 <= j < |paths| && paths[j] !in old(files)
      ensures r.Ok? ==> r.value == FeaturedOf(SortByDateDesc(ReadAll(paths, old(files), old(LoadCache())), toTime), limit)
      ensures r.Ok? ==> HasRead(paths, old(files), old(cacheFile))
      ensures r.Err? ==> r == Err("ENOENT") && HasRead(paths[..FirstMissing(paths, old(files))], old(files), old(cacheFile))
    {
      var all := GetPosts(paths, -1, toTime);
      if all.Err? {
        return Err(all.error);
      }
      r := Ok(FeaturedOf(all.value, limit));
    }
  }
}
