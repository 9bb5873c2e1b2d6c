# Verified model of a marketing site's logic helpers

This project models, in Dafny, the small pieces of logic spread through a personal/agency marketing site written in TypeScript with Next.js and React. It then proves properties of that model. The pieces modelled are:

- **Loading screen context.** A set of loaded asset names, the progress percentage derived from it, and the completion step.
- **Contact endpoint, front.** The admission middleware: the client-identifier rule, fail-open without a limiter, and the 429 decision with its rate-limit headers.
- **Contact handler.** HTML escaping, required-field validation, the captcha policy, forwarded-IP extraction and the `N/D` defaults of the notification e-mail.
- **Blog content layer (`lib/mdx.ts`).** Read-time estimation, the read-time cache and front-matter rewrite, slugs, and newest-first / limited / featured / by-slug listings.
- **Blog content layer (`lib/utils.ts`).** The in-place date sort, tag counting over published posts, tags by count, and selection by tag slug.
- **Index arithmetic.** The looping blog carousel (an index modulo twice the item count), the endless services carousel (renormalisation over a tripled list), and the three-column testimonials split.
- **Small UI state machines.** Show-on-scroll-up navigation bars with a single active item, the service card's click dispatch and checkout flag, the packages dialog's call-to-action choice, the once-per-session notice with scroll lock, and the YouTube embed (video id extraction, iframe URL, thumbnail fallback).
- **Other UI rules.** Viewport quantisation, view-count suffixes, the table-of-contents heading filter, and the startups partition with its grid spans.
- **JSON-LD builders.** schema.org Organization, WebSite, Service, BreadcrumbList and FAQPage.

There is one Dafny module per source file. `ScrollRule` holds the scroll rule that `Menu` and `NewNavbar` share. `JsLib` holds the JavaScript primitives the source relies on: the `\s` white-space class, `trim`, `split(sep)[0]`, `slice` with negative and out-of-range bounds, `String(n)`, `includes`/`startsWith`/`endsWith`, the truncating `%`, `filter` and a stable descending `sort`. `Wrappers` holds `Option`/`Result` for `null`/`undefined` and thrown errors.

Code that changes state step by step becomes a class whose methods are proved against functions of the old state:

- the loading provider, the post store with its cache, and the carousels;
- the navigation bars, the service card, the notice and the embed;
- the MDX component's effect.

`sortPosts` keeps its array and is proved to sort it in place by a permutation. `getAllTags` keeps its loop and is proved to compute a tally function.

Foreign functions are parameters of the model functions that call them: `encodeURIComponent`, `new URL(...).searchParams`, `new Date(...).getTime()`, `toFixed(1)`, the slug function, the rate limiter and the captcha service.

In `lib/hooks/useViewport.ts` the doc comment says mobile is "< 768", but the code tests `<= 768`. The model follows the code.

## Model

| member | source | states |
|---|---|---|
| `LoadingContext.AssetProgress` | lib/context/LoadingContext.tsx:72-75 | progress after `n` distinct assets lies in [0, 100], is 100 exactly when `n >= 4`, and is `25 * n` below that |
| `LoadingContext.AssetProgressMonotone` | lib/context/LoadingContext.tsx:72-75 | more loaded assets never show less progress |
| `LoadingContext.ClampProgress` | lib/context/LoadingContext.tsx:92 | a forced value is kept when in [0, 100], else becomes 0 below and 100 above |
| `LoadingContext.LoadingProvider.constructor` | lib/context/LoadingContext.tsx:55-60 | initial state: progress 0, loading, not complete, no assets |
| `LoadingContext.LoadingProvider.SetAssetLoaded` | lib/context/LoadingContext.tsx:67-83 | adds the name (any name; re-adding leaves the set as it was), progress is recomputed from the set's size, the two flags are untouched |
| `LoadingContext.LoadingProvider.SetProgress` | lib/context/LoadingContext.tsx:89-94 | progress becomes the clamped value; flags and assets unchanged |
| `LoadingContext.LoadingProvider.SetLoadingComplete` | lib/context/LoadingContext.tsx:100-107 | progress 100, complete, not loading, assets kept, and no completion left pending |
| `LoadingContext.LoadingProvider.Tick` | lib/context/LoadingContext.tsx:117-128 | the delayed completion fires only when at least four assets are in and the load is not complete yet, otherwise nothing changes; afterwards it is never pending again |
| `LoadingContext.LoadAllRequired` | lib/context/LoadingContext.tsx:47-52 | reporting the four required assets and one timer step completes the load with exactly those assets |
| `LoadingContext.UseLoading` | lib/context/LoadingContext.tsx:149-155 | the provider's value inside a provider; outside one, the error with its exact message |
| `Middleware.ForwardedFirst` | middleware.ts:8-10 | the trimmed first comma entry of `x-forwarded-for`, empty when the header is absent |
| `Middleware.ChosenCandidateUnique` | middleware.ts:20-23 | at most one fallback header is the first with a value |
| `Middleware.ClientIpUnique` | middleware.ts:7-25 | the headers determine the client identifier: the selection rule has one answer |
| `Middleware.GetClientIp` | middleware.ts:7-25 | the result is the trimmed first forwarded entry when non-empty, else the first of the five headers with a value (untrimmed, in order), else `127.0.0.1`; never empty |
| `Middleware.HandleRequest` | middleware.ts:28-60 | without URL and token: pass, no headers, limiter not asked; otherwise the key is `contact:` plus the client identifier, the verdict decides pass or 429 "Too Many Requests", and both set the three rate-limit headers to the limiter's numbers |
| `ContactRoute.EscapeChar` | app/api/contact/route.ts:25 | the five special characters become entities from `&` to `;`; every other character is kept |
| `ContactRoute.EscapeHtml` | app/api/contact/route.ts:24-26 | escaping never shortens the text |
| `ContactRoute.EscapeHtmlConcat` | app/api/contact/route.ts:25 | escaping distributes over concatenation |
| `ContactRoute.EscapeHtmlIdentity` | app/api/contact/route.ts:25 | text without the five characters is unchanged |
| `ContactRoute.EscapeHtmlSafe` | app/api/contact/route.ts:25 | escaped text contains no `<`, `>`, `"` or `'` |
| `ContactRoute.UnescapeEntity` | app/api/contact/route.ts:25 | each of the five entities decodes back to its character |
| `ContactRoute.UnescapePlain` | app/api/contact/route.ts:25 | an ordinary character decodes to itself |
| `ContactRoute.EscapeHtmlRoundTrip` | app/api/contact/route.ts:24-26 | decoding the escaped text gives the original back, so escaping loses nothing |
| `ContactRoute.OrElse` | app/api/contact/route.ts:76 | `v \|\| fallback`: the value when present and non-empty, else the fallback |
| `ContactRoute.RemoteIp` | app/api/contact/route.ts:58 | the remote address is absent without the header and, when present, non-empty with no surrounding whitespace |
| `ContactRoute.RemoteIpAgreesWithMiddleware` | app/api/contact/route.ts:58 | the endpoint's address exists exactly when the middleware's forwarded entry does, and is then the middleware's client identifier |
| `ContactRoute.VerifyTurnstile` | app/api/contact/route.ts:28-48 | no secret: accept; otherwise accept exactly when the service replied with success (a thrown call rejects) |
| `ContactRoute.BudgetCell` | app/api/contact/route.ts:76 | budget shown escaped, `N/D` when missing or empty |
| `ContactRoute.EscapeAll` | app/api/contact/route.ts:77 | every service escaped, same count and order |
| `ContactRoute.ServicesCell` | app/api/contact/route.ts:77 | never empty; `N/D` for a missing list, an empty one, or one holding only the empty string (whose join is empty); otherwise the escaped services joined with `, ` |
| `ContactRoute.ServicesCellMarkupFree` | app/api/contact/route.ts:77 | the services cell never holds `<`, `>`, `"` or `'`, whatever the sender puts in the list |
| `ContactRoute.JoinEscapedMarkupFree` | app/api/contact/route.ts:77 | joining escaped services with `, ` adds no markup characters |
| `ContactRoute.ServicesCellSingle` | app/api/contact/route.ts:77 | a single non-empty service is shown escaped on its own |
| `ContactRoute.Post` | app/api/contact/route.ts:50-52 | an unreadable body answers 500 "Server error" |
| `ContactRoute.CalNotes` | app/api/contact/route.ts:68 | the notes start with `Servicios: ` and end with `\nPresupuesto: ` and the budget, or `N/D` when it is missing or empty; with no services (missing, empty or only `''`) the services part is empty, not `N/D` |
| `ContactRoute.CalNotesSingle` | app/api/contact/route.ts:68 | one service goes into the notes exactly as the sender wrote it |
| `ContactRoute.CalNotesKeepsMarkup` | app/api/contact/route.ts:68 | the notes are not escaped: a service holding `<`, `>`, `"` or `'` puts it into the notes |
| `ContactRoute.CalLink` | app/api/contact/route.ts:65-70 | the link is `https://cal.com/l4zarusdev` followed by the serialized parameters `name`, `email`, `notes`, in that order |
| `ContactRoute.PostReplyBody` | app/api/contact/route.ts:64-115 | a 200 reply comes from a complete body and carries `{ ok: true, calLink }` with the link built from that body's fields; every other reply is an error |
| `ContactRoute.PostAcceptsIff` | app/api/contact/route.ts:50-70 | the reply is 200 exactly when the body was read, name, e-mail and message are non-empty, and the captcha passed; every reply is 200, 400 or 500 |
| `ContactRoute.IncompleteBeforeCaptcha` | app/api/contact/route.ts:54-56 | a missing field answers 400 "Datos incompletos" whatever the captcha would say |
| `ContactRoute.CaptchaRejection` | app/api/contact/route.ts:59-62 | a complete body the captcha rejects answers 400 "Captcha inválido" |
| `Mdx.Pieces` | lib/mdx.ts:49 | splitting on white-space runs always yields at least one piece |
| `Mdx.PiecesHaveNoSpace` | lib/mdx.ts:49 | no piece contains white space |
| `Mdx.NonSpaceSkipsLeading` | lib/mdx.ts:49 | dropping leading white space keeps the non-space characters |
| `Mdx.PiecesKeepText` | lib/mdx.ts:49 | the pieces put together are exactly the non-space characters of the text |
| `Mdx.PiecesCount` | lib/mdx.ts:49 | there is one piece more than there are maximal runs of white space |
| `Mdx.RunStartsAfterSpace` | lib/mdx.ts:49 | inside a run of white space, the runs still to come are those after the run |
| `Mdx.WordCount` | lib/mdx.ts:49 | the word count is one more than the number of maximal white-space runs, so at least 1 even for empty text |
| `Mdx.CeilMinutes` | lib/mdx.ts:50 | `ceil(count / 200)`: the least `m` with `count <= 200 * m` |
| `Mdx.ReadMinutes` | lib/mdx.ts:48-50 | the minutes are at least 1 |
| `Mdx.ReadTime` | lib/mdx.ts:47-52 | `"<minutes> min"`: decimal digits whose value is the minutes (at least 1), then ` min` |
| `Mdx.Slug` | lib/mdx.ts:149 | one trailing `.mdx` removed, any other path unchanged |
| `Mdx.SlugOfMdx` | lib/mdx.ts:149 | the slug of `name.mdx` is `name` |
| `Mdx.ResolveReadTime` | lib/mdx.ts:111-131 | a truthy front-matter value wins; else a truthy cache entry; else the computed value; the result is never empty |
| `Mdx.MakePost` | lib/mdx.ts:145-151 | the returned post carries the path, the slug of the path, the chosen read time and the file's content and front matter |
| `Mdx.SortByDateDesc` | lib/mdx.ts:164-167 | newest first by timestamp, a permutation of the posts, and stable: the posts with any one timestamp keep their input order |
| `Mdx.TakeLimit` | lib/mdx.ts:169 | `-1` keeps everything; a non-negative limit keeps that many from the front; other negative limits cut from the end as `slice` does |
| `Mdx.FindBySlug` | lib/mdx.ts:178 | none exactly when no post has the slug; otherwise the first post with it |
| `Mdx.FeaturedOf` | lib/mdx.ts:187-188 | a prefix of the featured posts in their order; its length is `min(limit, featured count)` for a non-negative limit and what `slice` keeps for a negative one; every post returned is featured and one of the input |
| `Mdx.PrefixIsSubsequence` | lib/mdx.ts:188 | a prefix keeps the order of the list it is taken from |
| `Mdx.FeaturedComplete` | lib/mdx.ts:185-188 | a featured post with fewer than `limit` featured posts before it is returned |
| `Mdx.ReadOne` | lib/mdx.ts:106-151 | the post reading an existing file gives: built from the file and the read time chosen from its front matter or the cache, which is never empty |
| `Mdx.ReadAll` | lib/mdx.ts:161-162 | one post per path, in path order, each what reading that file first gives against the starting files and cache |
| `Mdx.ReadAllSnoc` | lib/mdx.ts:162 | reading one more path appends its post |
| `Mdx.Stamp` | lib/mdx.ts:138-143 | rewriting front matter never adds or removes a file |
| `Mdx.CacheEntry` | lib/mdx.ts:118-129 | a path not yet read keeps the cache entry it had |
| `Mdx.FirstMissing` | lib/mdx.ts:106-162 | the position of the first missing file: every earlier file exists, and it is the length of the list exactly when all do |
| `Mdx.FirstMissingAt` | lib/mdx.ts:106-162 | scanning from the front, an existing file moves the first missing one further; a missing file is it |
| `Mdx.StampNothing` | lib/mdx.ts:161-162 | before any read the directory is unchanged |
| `Mdx.ResolvedAfter` | lib/mdx.ts:111-135 | after some reads, a file read before resolves from its front matter to the read time it was given; any other file, and its cache entry, are as they were |
| `Mdx.StampStep` | lib/mdx.ts:138-143 | reading one more file adds exactly its rewrite to the directory |
| `Mdx.WithOwnReadTime` | lib/mdx.ts:111-143 | writing back the read time the front matter already has changes nothing |
| `Mdx.CacheStep` | lib/mdx.ts:118-129 | reading one more file adds its entry to the cache exactly when its read time is computed |
| `Mdx.AnyComputedStep` | lib/mdx.ts:124-129 | the cache file is written by a run of reads exactly when some read computes a read time |
| `Mdx.ComputedBefore` | lib/mdx.ts:124-129 | a file read a second time was computed, if at all, the first time |
| `Mdx.ReadStep` | lib/mdx.ts:106-162 | one more read of an existing file returns what reading it first would have, and leaves files, cache and cache file as if it had been read along with the others |
| `Mdx.StampedHaveReadTime` | lib/mdx.ts:133-143 | every file read now carries a read time in its front matter |
| `Mdx.RereadIsStable` | lib/mdx.ts:111-151 | reading a file again takes its read time from the front matter, returns the same post and rewrites nothing |
| `Mdx.PostStore.constructor` | lib/mdx.ts:26-27 | the store holds the given posts directory and cache file |
| `Mdx.PostStore.GetPost` | lib/mdx.ts:106-152 | a missing file fails and changes nothing; a front-matter read time changes nothing; a cached one rewrites only the file; a computed one is cached under the path and written to the file; the post returned is built from the chosen read time |
| `Mdx.PostStore.GetPostTwice` | lib/mdx.ts:111-143 | after one read the file carries its read time, so a second read returns the same post |
| `Mdx.PostStore.ReadNext` | lib/mdx.ts:162 | a missing file fails and changes nothing; otherwise the post reading that file first gives, and the store is that of one more file read |
| `Mdx.PostStore.ReadPaths` | lib/mdx.ts:159-162 | fails exactly when some path is missing, with the files before the first missing one read; otherwise the posts of every path in order, every file read |
| `Mdx.PostStore.GetPosts` | lib/mdx.ts:158-170 | fails exactly when some path is missing, with the files before it read; otherwise the posts reading the paths in order gives, newest first, then limited; every file then carries its read time, each computed one is in the cache, and the cache file is written only when one was computed |
| `Mdx.PostStore.GetPostBySlug` | lib/mdx.ts:176-179 | fails as reading all posts does; otherwise the first post, newest first, whose slug matches among the posts reading every path gives, with the store as `getPosts` leaves it |
| `Mdx.PostStore.GetFeaturedPosts` | lib/mdx.ts:185-189 | fails as reading all posts does; otherwise the featured posts among the posts reading every path gives, newest first, then `slice(0, limit)`, with the store as `getPosts` leaves it |
| `Utils.StrLtIrreflexive` | lib/utils.ts:49-50 | no date string is before itself |
| `Utils.StrLtTotal` | lib/utils.ts:49-51 | two different date strings are ordered exactly one way |
| `Utils.StrLtTransitive` | lib/utils.ts:49-50 | the string order is transitive |
| `Utils.NotOlderTransitive` | lib/utils.ts:49-51 | "not older than" is transitive, so the comparator is a consistent order |
| `Utils.CompareByDateDesc` | lib/utils.ts:48-52 | -1 exactly for a later date, 1 exactly for an earlier one, 0 exactly for the same date |
| `Utils.SortPosts` | lib/utils.ts:47-53 | the same array comes back, sorted in place newest first, a permutation of its old contents, and stable: the posts of each date keep their old order |
| `Utils.MoveLeft` | lib/utils.ts:48-52 | one insertion step extends the newest-first prefix by one post, permutes the array and keeps the order among the posts of each date |
| `Utils.ShiftLeft` | lib/utils.ts:48-52 | the moved post lands at the returned index, the posts it passed each move one place right and are strictly older than it, nothing else moves, and the post to its left is not older |
| `Utils.ShiftedSorted` | lib/utils.ts:48-52 | such a step on a newest-first prefix leaves the prefix one longer and newest first |
| `Utils.ShiftedKeepsDates` | lib/utils.ts:48-52 | such a step permutes the posts and keeps, for every date, the posts of that date in order |
| `Utils.MovedPastOtherDates` | lib/utils.ts:48-52 | moving a post past posts of other dates changes no date's sequence of posts |
| `Utils.PublishedTags` | lib/utils.ts:64-71 | every tag listed comes from a published post that has tags |
| `Utils.TallyCounts` | lib/utils.ts:68 | the record lists each tag once, its keys are exactly the tags seen, and each count is the tag's number of occurrences |
| `Utils.PublishedTagsSnoc` | lib/utils.ts:64-71 | one more post adds exactly its contribution to the tag list |
| `Utils.TallySnoc` | lib/utils.ts:68 | one more tag is one more `tags[t] = (tags[t] ?? 0) + 1` |
| `Utils.GetAllTags` | lib/utils.ts:61-74 | the nested loops build the tally of the published posts' tags |
| `Utils.AllTagsCounts` | lib/utils.ts:61-74 | the record's keys are exactly the tags of published posts, duplicates within a post each counted |
| `Utils.UnpublishedIgnored` | lib/utils.ts:66-67 | an unpublished or untagged post contributes nothing |
| `Utils.PublishedAdds` | lib/utils.ts:66-69 | a published post adds all its tags, duplicates included |
| `Utils.SortTagsByCount` | lib/utils.ts:79-81 | a permutation of the record's keys, in non-increasing count order, and keys with equal counts keep the record's insertion order |
| `Utils.Slugs` | lib/utils.ts:96 | one slug per tag, in order |
| `Utils.HasTagSlugIff` | lib/utils.ts:93-97 | a post is selected exactly when it has tags and one of them slugifies to the query |
| `Utils.PostsByTagSlug` | lib/utils.ts:91-99 | an order-preserving subsequence holding exactly the posts with a tag whose slug is the query (untagged posts excluded) |
| `ResponsiveYouTube.IdRun` | components/ui/ResponsiveYouTube.tsx:72-76 | the longest prefix made of `[A-Za-z0-9_-]`: all id characters, and the next character (if any) is not one |
| `ResponsiveYouTube.FindFrom` | components/ui/ResponsiveYouTube.tsx:72-75 | the leftmost position where the prefix is followed by six or more id characters, or none when there is no such position |
| `ResponsiveYouTube.MatchPattern` | components/ui/ResponsiveYouTube.tsx:80-81 | a capture is at least six id characters long |
| `ResponsiveYouTube.PrefixedCapture` | components/ui/ResponsiveYouTube.tsx:72-75 | a prefixed pattern captures the maximal run at its leftmost match |
| `ResponsiveYouTube.WholeIdMatch` | components/ui/ResponsiveYouTube.tsx:76 | the bare-id pattern matches exactly the strings of six or more id characters, and captures the whole string |
| `ResponsiveYouTube.AllIdRun` | components/ui/ResponsiveYouTube.tsx:76 | a string of id characters is one run |
| `ResponsiveYouTube.FirstMatch` | components/ui/ResponsiveYouTube.tsx:79-82 | any id found is six or more id characters |
| `ResponsiveYouTube.FirstMatchWins` | components/ui/ResponsiveYouTube.tsx:79-82 | the first matching pattern, in the fixed order, gives the id whatever the later ones would give |
| `ResponsiveYouTube.FirstMatchNone` | components/ui/ResponsiveYouTube.tsx:79-82 | the search fails exactly when no pattern matches |
| `ResponsiveYouTube.VideoId` | components/ui/ResponsiveYouTube.tsx:68-91 | `''` for empty input; else the capture of the first matching pattern; else the `v` query parameter, `''` when missing or the URL does not parse |
| `ResponsiveYouTube.EmbedDomain` | components/ui/ResponsiveYouTube.tsx:93 | the no-cookie domain exactly when `noCookie` is set, `www.youtube.com` otherwise |
| `ResponsiveYouTube.RemoveKey` | components/ui/ResponsiveYouTube.tsx:101-110 | no pair with the removed key is left |
| `ResponsiveYouTube.SetParamNew` | components/ui/ResponsiveYouTube.tsx:101-110 | setting a key not yet present appends it |
| `ResponsiveYouTube.SetParamExisting` | components/ui/ResponsiveYouTube.tsx:101-110 | setting a key already present replaces its value in place |
| `ResponsiveYouTube.RemoveAbsent` | components/ui/ResponsiveYouTube.tsx:101-110 | removing a key that is absent changes nothing |
| `ResponsiveYouTube.RemoveKeyContents` | components/ui/ResponsiveYouTube.tsx:101-110 | removing a key keeps exactly the pairs with other keys |
| `ResponsiveYouTube.SetParamContents` | components/ui/ResponsiveYouTube.tsx:101-110 | after `set(k, v)` the pair `(k, v)` is there, every pair with key `k` has value `v`, and the pairs with other keys are exactly the old ones |
| `ResponsiveYouTube.Serialize` | components/ui/ResponsiveYouTube.tsx:112 | `toString` is empty exactly for no pairs, and otherwise starts with the first pair as `k=v` |
| `ResponsiveYouTube.SerializeSnoc` | components/ui/ResponsiveYouTube.tsx:112 | a pair appended last is written last, after an `&` |
| `ResponsiveYouTube.LeadingParams` | components/ui/ResponsiveYouTube.tsx:102-108 | the parameters set before the two trailing ones never use those two keys |
| `ResponsiveYouTube.EmbedParams` | components/ui/ResponsiveYouTube.tsx:101-110 | `rel=0`, `playsinline=1`, `controls`, then `autoplay=1` only with autoplay, `start=floor(start)` only for a finite non-zero start, then `modestbranding=1`, `enablejsapi=1` |
| `ResponsiveYouTube.SetTwoNew` | components/ui/ResponsiveYouTube.tsx:109-110 | setting two new keys appends both, in order |
| `ResponsiveYouTube.EmbedParamsDistinct` | components/ui/ResponsiveYouTube.tsx:101-110 | every query parameter appears once |
| `ResponsiveYouTube.SetLeadingParams` | components/ui/ResponsiveYouTube.tsx:101-108 | the successive `params.set` calls on a fresh list build the leading parameters |
| `ResponsiveYouTube.IframeSrc` | components/ui/ResponsiveYouTube.tsx:98-113 | `''` without an id; otherwise `https://<domain>/embed/<id>?` followed by the parameters in the order above |
| `ResponsiveYouTube.Thumbnail` | components/ui/ResponsiveYouTube.tsx:120-123 | empty exactly without an id; otherwise the `maxresdefault.jpg` still |
| `ResponsiveYouTube.HqThumbnail` | components/ui/ResponsiveYouTube.tsx:135 | the fallback still ends in `hqdefault.jpg` |
| `ResponsiveYouTube.EndsWithIncludes` | components/ui/ResponsiveYouTube.tsx:134 | a string ending in `t` includes `t` |
| `ResponsiveYouTube.Embed.constructor` | components/ui/ResponsiveYouTube.tsx:56-113 | the iframe source is the one `iframeSrc` builds from the props; the iframe is loaded at once exactly when the player is not lazy; no error; the still starts at the high-resolution image |
| `ResponsiveYouTube.Embed.Render` | components/ui/ResponsiveYouTube.tsx:144-186 | the invalid state exactly without an id; the iframe once loaded; else the still, or the placeholder after the error |
| `ResponsiveYouTube.Embed.Activate` | components/ui/ResponsiveYouTube.tsx:126-128 | the iframe becomes loaded and the still's state is untouched |
| `ResponsiveYouTube.Embed.ImageError` | components/ui/ResponsiveYouTube.tsx:131-141 | a still that is not the fallback switches to the fallback; an error on the fallback sets the error flag |
| `ResponsiveYouTube.MaxresNoOccurrence` | components/ui/ResponsiveYouTube.tsx:122 | `hqdefault.jpg` does not occur at any position of the high-resolution still of an id |
| `ResponsiveYouTube.MaxresIsNotFallback` | components/ui/ResponsiveYouTube.tsx:134 | the high-resolution still never passes the `includes('hqdefault.jpg')` test, so its first error switches to the fallback |
| `ResponsiveYouTube.StillFailsTwice` | components/ui/ResponsiveYouTube.tsx:131-141 | two load errors on a lazy player end on the placeholder, having tried the fallback |
| `Carousel.Plus` | components/mdx-components/carousel.tsx:69 | adding to `NaN` gives `NaN`, and only then |
| `Carousel.Rem` | components/mdx-components/carousel.tsx:40 | JavaScript `%`: `NaN` for a zero modulus or a `NaN` operand; otherwise strictly between `-m` and `m`, and the usual remainder for a non-negative operand |
| `Carousel.Next` | components/mdx-components/carousel.tsx:40 | the autoplay step keeps a slot index a slot index |
| `Carousel.NextStep` | components/mdx-components/carousel.tsx:39-41 | autoplay moves one slot on, wrapping from the last slot of the doubled track to 0 |
| `Carousel.Swiped` | components/mdx-components/carousel.tsx:68-70 | `NaN` with no items; otherwise keeps a slot index a slot index |
| `Carousel.SwipeStep` | components/mdx-components/carousel.tsx:67-70 | a forward swipe is the autoplay step; a backward swipe moves one slot back, wrapping from 0 to the last slot |
| `Carousel.SwipeUndo` | components/mdx-components/carousel.tsx:68-70 | a swipe back undoes a swipe on, and the other way round |
| `Carousel.NextNMoves` | components/mdx-components/carousel.tsx:39-41 | after `k` autoplay steps the index is `(idx + k) mod 2 * total` |
| `Carousel.AutoplayPeriod` | components/mdx-components/carousel.tsx:39-41 | `2 * total` autoplay steps come back to the same slot |
| `Carousel.Track` | components/mdx-components/carousel.tsx:99-109 | the rendered track is the items twice: length `2 * total`, both passes in item order |
| `Carousel.TrackSlot` | components/mdx-components/carousel.tsx:99-109 | slot `j` shows item `j mod total` |
| `Carousel.ClickedSlot` | components/mdx-components/carousel.tsx:100-104 | the click handler of item `index` on pass 0 or 1 focuses exactly that slot, which shows that item |
| `Carousel.AfterMoveFrom` | components/mdx-components/carousel.tsx:62-73 | the listeners from `i` on act as listener `i` followed by the rest |
| `Carousel.ListenerStepOk` | components/mdx-components/carousel.tsx:62-73 | one listener's step keeps the index a slot index (or, with no items, 0 or `NaN`) |
| `Carousel.AfterMoveOk` | components/mdx-components/carousel.tsx:62-73 | every listener's step keeps the index a slot index (or, with no items, 0 or `NaN`) |
| `Carousel.Carousel.constructor` | components/mdx-components/carousel.tsx:25-29 | index 0 and no touch listeners |
| `Carousel.Carousel.AutoplayTick` | components/mdx-components/carousel.tsx:36-44 | one interval moves the index by the autoplay step; with no items nothing happens |
| `Carousel.Carousel.HandleImageClick` | components/mdx-components/carousel.tsx:49-51 | the index becomes `index % (total * 2)`, a slot index for a non-negative `index` |
| `Carousel.Carousel.TouchStart` | components/mdx-components/carousel.tsx:59-82 | one more move listener is registered, remembering the first touch's x (0 without one); the index is untouched |
| `Carousel.Carousel.TouchMove` | components/mdx-components/carousel.tsx:62-73 | every listener, oldest first, swipes the index when its finger moved more than 50 pixels and then unregisters; the others stay, in order |
| `Carousel.Carousel.TouchEnd` | components/mdx-components/carousel.tsx:76-82 | every pending move listener is unregistered; the index is untouched |
| `Carousel.SingleSwipe` | components/mdx-components/carousel.tsx:62-73 | one listener past the threshold moves one slot and is spent; below it, nothing moves and it stays |
| `ServicesCarousel.Tripled` | components/Services/ServicesCarousel.tsx:25-28 | the track is three times as long as the list |
| `ServicesCarousel.TripledAt` | components/Services/ServicesCarousel.tsx:25-28 | slot `i` of the track shows service `i mod baseLen` |
| `ServicesCarousel.MeasuredSlide` | components/Services/ServicesCarousel.tsx:154-158 | the measured slide at `baseLen` exists exactly when there are services, and shows the first one |
| `ServicesCarousel.NormalizedSameService` | components/Services/ServicesCarousel.tsx:54-60 | normalising moves by `-baseLen`, 0 or `+baseLen` and keeps `index mod baseLen` |
| `ServicesCarousel.NormalizedOnTrack` | components/Services/ServicesCarousel.tsx:45-60 | from any slide of the track it lands on a slide within four of the middle copy, showing the same service, and a second normalisation changes nothing |
| `ServicesCarousel.ServicesCarousel.constructor` | components/Services/ServicesCarousel.tsx:21-22 | both arrows start enabled, scroller at 0 |
| `ServicesCarousel.ServicesCarousel.Init` | components/Services/ServicesCarousel.tsx:72-75 | jumps to slide `baseLen`, the first service of the middle copy, and enables both arrows |
| `ServicesCarousel.ServicesCarousel.OnScroll` | components/Services/ServicesCarousel.tsx:45-61 | the index becomes the normalised one, showing the same service; the arrows are untouched |
| `ServicesCarousel.ServicesCarousel.ScrollBySlides` | components/Services/ServicesCarousel.tsx:92-104 | one slide left or right, staying on the track |
| `ServicesCarousel.ServicesCarousel.KeyDown` | components/Services/ServicesCarousel.tsx:106-109 | with slides, `ArrowLeft` moves one slide left unless at slide 0 and `ArrowRight` one slide right unless at the last of the three copies' `3 × n` slides; any other key changes nothing |
| `ServicesCarousel.ButtonsAlwaysEnabled` | components/Services/ServicesCarousel.tsx:63-66 | after start-up and any sequence of keys and scrolls both arrows are enabled |
| `ScrollingTestimonials.Third` | components/YoutubeGrid/ScrollingTestimonials.tsx:78 | `ceil(n / 3)`: the least `t` with `n <= 3 * t` |
| `ScrollingTestimonials.Split` | components/YoutubeGrid/ScrollingTestimonials.tsx:77-84 | always three groups |
| `ScrollingTestimonials.SplitConcat` | components/YoutubeGrid/ScrollingTestimonials.tsx:77-84 | the three groups read one after another are the comments in their order |
| `ScrollingTestimonials.SplitSizes` | components/YoutubeGrid/ScrollingTestimonials.tsx:77-84 | no group holds more than `third`, and a later group is non-empty only when the earlier ones are full |
| `ScrollingTestimonials.ColumnClass` | components/YoutubeGrid/ScrollingTestimonials.tsx:180-182 | only the middle column (index 1) is slow; the others are fast |
| `ScrollingTestimonials.Doubled` | components/YoutubeGrid/ScrollingTestimonials.tsx:163-170 | a marquee column renders its list and then the same list again |
| `ScrollingTestimonials.DesktopColumns` | components/YoutubeGrid/ScrollingTestimonials.tsx:177-200 | three columns, column `i` renders group `i` twice with its speed class |
| `ScrollingTestimonials.EachCommentTwice` | components/YoutubeGrid/ScrollingTestimonials.tsx:163-198 | the desktop grid shows every comment exactly twice, as the mobile column does |
| `ScrollRule.Decide` | components/Hero/Menu/Menu.tsx:79-85 | show exactly when scrolling up or above 100 pixels; hide exactly when scrolling down past 100 pixels |
| `ScrollRule.KeepCases` | components/Hero/Menu/Menu.tsx:79-85 | visibility is left alone exactly when the new offset is at least 100 and either equals the last one or is exactly 100 after a move down |
| `ScrollRule.Apply` | components/Hero/Menu/Menu.tsx:79-85 | show sets visible, hide sets hidden, otherwise the old visibility stays |
| `ScrollRule.BackToTopShows` | components/Hero/Menu/Menu.tsx:79-80 | whatever scrolling came before, ending above 100 pixels shows the bar |
| `Menu.WithActive` | components/Hero/Menu/Menu.tsx:59-66 | same length, names and links; an item is active exactly when its name is the selected one |
| `Menu.ExactlyOneActive` | components/Hero/Menu/Menu.tsx:59-66 | with distinct names and the selected name present, exactly that item is active |
| `Menu.NoneActive` | components/Hero/Menu/Menu.tsx:59-66 | selecting a name no item has leaves all inactive |
| `Menu.InitialOnlyInicio` | components/Hero/Menu/Menu.tsx:47-53 | the initial names are distinct and only "Inicio" is active, as if it had been selected |
| `Menu.Menu.constructor` | components/Hero/Menu/Menu.tsx:40-53 | mobile panel closed, bar visible, last offset 0, the initial navigation |
| `Menu.Menu.HandleScroll` | components/Hero/Menu/Menu.tsx:75-88 | visibility follows the shared rule, a hiding scroll closes the mobile panel, the offset is remembered, the items are untouched |
| `Menu.Menu.SetActiveNavItem` | components/Hero/Menu/Menu.tsx:59-66 | the items are updated by the selection rule; nothing else changes |
| `Menu.Menu.OpenMobileMenu` | components/Hero/Menu/Menu.tsx:112-114 | the menu button opens the panel; nothing else changes |
| `Menu.Menu.CloseMobileMenu` | components/Hero/Menu/Menu.tsx:201-220 | the close button and every mobile link close the panel; nothing else changes |
| `NewNavbar.Navbar.constructor` | components/Hero/NewNavbar.tsx:31-33 | no dropdown open, visible, last offset 0 |
| `NewNavbar.Navbar.HandleScroll` | components/Hero/NewNavbar.tsx:37-50 | visibility follows the shared rule, a hiding scroll closes the open dropdown, the offset is remembered |
| `NewNavbar.Navbar.SetActive` | components/Hero/NewNavbar.tsx:74 | hovering opens the named dropdown (or none); visibility and offset unchanged |
| `NewNavbar.HideClosesDropdown` | components/Hero/NewNavbar.tsx:43-47 | a dropdown open before a scroll down past 100 pixels is closed, and the bar hidden |
| `ServiceCard.WithDefaults` | components/Services/ServiceCard.tsx:68-71 | icon defaults to software, tags and links to empty lists; the other props pass through |
| `ServiceCard.WithDefaultsIdempotent` | components/Services/ServiceCard.tsx:68-71 | filling in the defaults a second time changes nothing |
| `ServiceCard.Card.constructor` | components/Services/ServiceCard.tsx:78-79 | dialog closed, not loading, no navigation, nothing handed to the parent |
| `ServiceCard.Card.HandleLinkClick` | components/Services/ServiceCard.tsx:88-115 | a packages click with a parent callback hands it the full record and does nothing else; without a callback but with packages it opens the dialog; otherwise it navigates to a non-empty URL, else does nothing |
| `ServiceCard.Card.CloseModal` | components/Services/ServiceCard.tsx:219 | the dialog closes; nothing else changes |
| `ServiceCard.Card.BeginCheckout` | components/Services/ServiceCard.tsx:123-134 | the loading flag goes up and the request carries the price and the `/success` and `/cancel` addresses on the site's origin |
| `ServiceCard.Card.FinishCheckout` | components/Services/ServiceCard.tsx:136-144 | redirects only to a returned non-empty URL, and lowers the loading flag whatever came back |
| `ServiceCard.Card.Modal` | components/Services/ServiceCard.tsx:216-224 | the card's own dialog exists exactly when the service has packages and no parent callback is given, and is hidden exactly while closed |
| `ServiceCard.Checkout` | components/Services/ServiceCard.tsx:123-145 | a checkout ends with the flag down; a failed request does not navigate |
| `PackagesModal.WhatsAppMessage` | components/Services/PackagesModal.tsx:31 | the message starts with the greeting, ends with the closing question, and has the service title and the plan name at their places |
| `PackagesModal.BuildWhatsAppUrl` | components/Services/PackagesModal.tsx:30-33 | `https://wa.me/55333201442?text=` followed by the encoded message |
| `PackagesModal.WhatsAppUrlDecodes` | components/Services/PackagesModal.tsx:32 | with an invertible encoding the link gives back the message naming the service and the plan |
| `PackagesModal.PlanHref` | components/Services/PackagesModal.tsx:98-99 | the plan's own non-empty call-to-action URL, else the WhatsApp link for the service and the plan |
| `PackagesModal.PlanButtonText` | components/Services/PackagesModal.tsx:100 | the plan's own non-empty call-to-action title, else "Hablar por WhatsApp"; never empty |
| `PackagesModal.Cards` | components/Services/PackagesModal.tsx:96-133 | one card per plan, in the plans' order |
| `PackagesModal.FallbackIsWhatsApp` | components/Services/PackagesModal.tsx:96-100 | a plan without a call to action links to WhatsApp with the default text |
| `PackagesModal.Render` | components/Services/PackagesModal.tsx:50-92 | nothing exactly while closed; open, it shows the title, the subtitle only when non-empty and then as given, and card `i` is the card of plan `i` |
| `DebugNoticeModal.Notice.constructor` | components/DebugNoticeModal.tsx:21-27 | the notice starts closed with nothing saved; it is enabled exactly in development or when the public flag is `'true'` |
| `DebugNoticeModal.Notice.Mount` | components/DebugNoticeModal.tsx:43-55 | the notice opens exactly when it is enabled and storage is unreadable, has no entry, or does not hold `'1'`; when it opens, the page overflow is saved and set to hidden; storage is untouched |
| `DebugNoticeModal.Notice.OnClose` | components/DebugNoticeModal.tsx:58-65 | records `'1'` under the session key when storage works (a failing write changes nothing), closes, and puts back the saved overflow (the cleanup at lines 52-54) |
| `DebugNoticeModal.Notice.KeyDown` | components/DebugNoticeModal.tsx:58-77 | Escape on an open notice closes it, restores the overflow and stores the dismissal when `sessionStorage` is usable, so the notice is not shown again this session; any other key, or one while closed, changes nothing |
| `DebugNoticeModal.DisabledNeverShows` | components/DebugNoticeModal.tsx:27-28 | a disabled notice never shows, whatever the storage holds |
| `DebugNoticeModal.ShownOncePerSession` | components/DebugNoticeModal.tsx:31-32 | after one mount and close with working storage, a second mount in the same session stays closed, and the page overflow is as before |
| `UseViewport.Quantize` | lib/hooks/useViewport.ts:44-48 | widths up to 768 become 390x844; up to 1024 give width 1024, above that 1920; outside mobile the height is 720 up to 720 and 1080 above |
| `UseViewport.QuantizeRange` | lib/hooks/useViewport.ts:45-47 | only widths 390, 1024, 1920 and heights 844, 720, 1080 occur, and height 844 goes with width 390 and with mobile windows only |
| `UseViewport.QuantizeMonotone` | lib/hooks/useViewport.ts:45 | a wider window never gets a narrower quantised width |
| `UseViewport.QuantizeIdempotent` | lib/hooks/useViewport.ts:45-47 | measuring a window already of a quantised size gives that size back |
| `UseViewport.Update` | lib/hooks/useViewport.ts:37-49 | without a window the size is unchanged; with one it is the window's quantised size |
| `UseViewport.AlwaysQuantized` | lib/hooks/useViewport.ts:31-59 | from the 1920x1080 default, any sequence of mount and resize runs reports the default or a quantised size |
| `VideoGrid.FormatViewCount` | components/YoutubeVideos/VideoGrid.tsx:34-42 | from a million the count is divided by a million and suffixed `M`, from a thousand by a thousand and suffixed `K`, below that it is the plain decimal |
| `VideoGrid.ViewCountUnit` | components/YoutubeVideos/VideoGrid.tsx:34-42 | the text ends in `M` from a million, in `K` from a thousand, and in a digit below that |
| `VideoGrid.FetchVideos` | components/YoutubeVideos/VideoGrid.tsx:97-106 | the parsed list on success; an empty list when the fetch throws or the response is not ok |
| `VideoGrid.Shown` | components/YoutubeVideos/VideoGrid.tsx:166 | the first nine videos in order, or all of them when there are fewer |
| `VideoGrid.Render` | components/YoutubeVideos/VideoGrid.tsx:150-170 | six placeholders exactly while loading; afterwards the grid of the shown videos |
| `VideoGrid.FailedFetchIsEmpty` | components/YoutubeVideos/VideoGrid.tsx:97-122 | after a failed fetch the grid is empty and the cards do not animate |
| `SeoBuilders.MemberUnique` | components/SEO/builders.ts:19-26 | in an object whose member names are distinct, a name has one value |
| `SeoBuilders.Strings` | components/SEO/builders.ts:25 | a string list becomes an array of the same strings in the same order |
| `SeoBuilders.Spread` | components/SEO/builders.ts:45-51 | spreading `cond && { k: v }` adds the member `k: v` when the value is there and no member otherwise |
| `SeoBuilders.DistinctSpread` | components/SEO/builders.ts:77-89 | spreading a member whose name is not yet used keeps the names distinct |
| `SeoBuilders.Organization` | components/SEO/builders.ts:9-26 | the object has distinct names, context `https://schema.org`, type `Organization`, the given name, url and logo, and `sameAs` with an empty list by default |
| `SeoBuilders.SearchAction` | components/SEO/builders.ts:46-50 | a `SearchAction` whose target is the site's url followed by `/search?q={search_term_string}` and whose `query-input` is `required name=search_term_string` |
| `SeoBuilders.Website` | components/SEO/builders.ts:32-52 | context `https://schema.org`, type `WebSite`, the name and url kept, and `potentialAction`, when present, is that site's `SearchAction`; it is present whenever `searchUrl` is non-empty |
| `SeoBuilders.WebsiteSearch` | components/SEO/builders.ts:45-51 | names are distinct, and `potentialAction` is present exactly when `searchUrl` is a non-empty string |
| `SeoBuilders.OfferJson` | components/SEO/builders.ts:81-88 | an offer keeps its name, price and currency, is in stock, and its url is its own when non-empty, else the service's |
| `SeoBuilders.Offers` | components/SEO/builders.ts:81-88 | one offer object per offer, in order |
| `SeoBuilders.ServiceMembers` | components/SEO/builders.ts:73-90 | name and provider are always members; each optional member is there when it has a value |
| `SeoBuilders.ServiceMembersDistinct` | components/SEO/builders.ts:73-90 | no two members of a service share a name, whichever optional ones are present |
| `SeoBuilders.ServiceMembersNames` | components/SEO/builders.ts:77-89 | `serviceType`, `areaServed` and `offers` are names of the object exactly when they have values |
| `SeoBuilders.Service` | components/SEO/builders.ts:59-90 | context `https://schema.org` and type `Service`; distinct names; an `areaServed` member is a `Place` named by the given area; `serviceType` and `areaServed` present exactly when non-empty; `offers` present exactly when given (an empty list included); the provider is an Organization with the provider's name |
| `SeoBuilders.ServiceOffers` | components/SEO/builders.ts:80-89 | every offer of a service is in stock and has its own url or the service's |
| `SeoBuilders.ListItems` | components/SEO/builders.ts:102-107 | one list item per crumb, numbered from the given start |
| `SeoBuilders.Breadcrumbs` | components/SEO/builders.ts:96-108 | distinct names, context `https://schema.org`, type `BreadcrumbList`, and the crumbs' list items numbered from 1 |
| `SeoBuilders.BreadcrumbPositions` | components/SEO/builders.ts:102-107 | crumb `i` is at position `i + 1`, keeps its name, and links to the base url followed by its path |
| `SeoBuilders.Questions` | components/SEO/builders.ts:117-121 | one question per FAQ entry, in order |
| `SeoBuilders.FaqPage` | components/SEO/builders.ts:114-122 | distinct names, context `https://schema.org`, type `FAQPage`, and the questions as `mainEntity` |
| `SeoBuilders.FaqOrder` | components/SEO/builders.ts:117-121 | question `i` is named by the `i`-th question and answered by the `i`-th answer |
| `MdxComponents.Level` | components/mdx-components.tsx:296 | a level exists exactly when the tag's second character is a digit, and it is that digit's value |
| `MdxComponents.ToHeading` | components/mdx-components.tsx:292-297 | a heading keeps the element's id, takes its text or `''` when null, and its level from the tag name |
| `MdxComponents.H1H2Levels` | components/mdx-components.tsx:289-297 | an `H1` is at level 1 and an `H2` at level 2 |
| `MdxComponents.ToHeadings` | components/mdx-components.tsx:291-297 | one heading per queried element, in document order |
| `MdxComponents.TableOfContentsSpec` | components/mdx-components.tsx:289-306 | the table of contents is an order-preserving subsequence of the page's `h1`/`h2` headings, holds exactly those that are neither `Table of Contents`, `Blog Name` nor the title, and every entry is at level 1 or 2 |
| `MdxComponents.MdxComponent.constructor` | components/mdx-components.tsx:279-284 | the props are stored, the effect has not run, and there are no headings |
| `MdxComponents.MdxComponent.Render` | components/mdx-components.tsx:287-307 | on mount and whenever `code` or `title` changed the headings are recomputed from the page; otherwise they are kept |
| `Startup.Partition` | components/Startups/Startup.tsx:200-206 | both lists are order-preserving filters holding exactly the entries of their status, and with only the two statuses they share out all entries |
| `Startup.DataSplit` | components/Startups/Startup.tsx:22-191 | every example startup is either successful or failed, so the two grids together show all eight |
| `Startup.SuccessSpan` | components/Startups/Startup.tsx:223-225 | cells 1, 2 and 5 of the successful grid are two columns wide, the others one |
| `Startup.FailedSpan` | components/Startups/Startup.tsx:252-254 | a failed cell is two columns wide exactly when its index is 0 or 3 modulo 6 |
| `Startup.FailedSpanPeriodic` | components/Startups/Startup.tsx:252-254 | the failed grid's pattern repeats every three cells: a cell is wide exactly when its index is a multiple of 3 |
| `Startup.Cells` | components/Startups/Startup.tsx:218-266 | one cell per startup in order, each with the class its position gives |
| `Startup.Render` | components/Startups/Startup.tsx:199-270 | the successful and failed grids are the cells of the two filters, and the failed grid is shown exactly when some startup failed |
| `JsLib.TrimStart` | lib/mdx.ts:49 | the result is the suffix of the input that starts at its first non-space character; everything dropped is white space |
| `JsLib.TrimEnd` | middleware.ts:10 | the result is the prefix of the input that ends at its last non-space character; everything dropped is white space |
| `JsLib.Trim` | middleware.ts:10 | the part of the input from its first non-space character with only white space before and after it in the input; it neither starts nor ends with white space |
| `JsLib.TrimParts` | middleware.ts:10 | trimming the start and then the end leaves the input's middle, with only white space cut on either side |
| `JsLib.TrimEmptyIff` | app/api/contact/route.ts:58 | trimming gives the empty (falsy) string exactly when the input is all white space |
| `JsLib.BeforeFirst` | middleware.ts:10 | `split(sep)[0]` is the longest prefix without `sep`, followed in the input by `sep` when shorter than it |
| `JsLib.IncludesOccurs` | components/ui/ResponsiveYouTube.tsx:134 | `includes` holds exactly when the text occurs at some position |
| `JsLib.DigitChar` | components/mdx-components.tsx:296 | the character of a decimal digit is in `'0'..'9'` and has that digit's value |
| `JsLib.NatToString` | lib/mdx.ts:51 | the decimal text of a natural number is non-empty, all digits, and has no leading zero |
| `JsLib.IntToString` | components/YoutubeVideos/VideoGrid.tsx:41 | the decimal text of an integer ends in a digit and starts with `-` exactly when the number is negative |
| `JsLib.NatToStringRoundTrip` | lib/mdx.ts:51 | reading the printed digits back gives the number |
| `JsLib.NatToStringInjective` | lib/mdx.ts:51 | different natural numbers print differently |
| `JsLib.IntToStringInjective` | components/YoutubeVideos/VideoGrid.tsx:41 | different integers print differently |
| `JsLib.SliceIndex` | lib/mdx.ts:169 | a slice bound is clamped to `[0, n]`, a negative bound counting from the end |
| `JsLib.Slice` | lib/mdx.ts:169 | `slice(start, end)` is the elements between the clamped bounds, or empty when they cross |
| `JsLib.SliceFrom` | components/YoutubeGrid/ScrollingTestimonials.tsx:82 | `slice(start)` is the suffix from the clamped bound |
| `JsLib.SlicePrefix` | components/YoutubeVideos/VideoGrid.tsx:166 | `slice(0, k)` is the first `k` elements, or all when there are fewer |
| `JsLib.JsRem` | components/mdx-components/carousel.tsx:69 | JavaScript's `%` for a positive divisor: the remainder has the sign of the dividend |
| `JsLib.JoinEmptyIff` | app/api/contact/route.ts:77 | with a non-empty separator the join is empty exactly for no element or a single empty one |
| `JsLib.FilterAppend` | lib/mdx.ts:187 | filtering distributes over concatenation |
| `JsLib.Filter` | lib/mdx.ts:187 | no longer than the input, and every element kept passes the test |
| `JsLib.FilterMembers` | lib/mdx.ts:187 | an element is kept exactly when it is in the input and passes the test |
| `JsLib.FilterIsSubsequence` | components/Startups/Startup.tsx:201-206 | a filter keeps its elements in their original order |
| `JsLib.FilterPartition` | components/Startups/Startup.tsx:201-206 | filtering on a test and on its negation shares out all the elements |
| `JsLib.Insert` | lib/utils.ts:80 | inserting into a list sorted by descending key keeps it sorted and adds exactly that element |
| `JsLib.SortDesc` | lib/utils.ts:80 | the result is sorted by descending key and is a permutation of the input |
| `JsLib.InsertWithKey` | lib/utils.ts:80 | inserting into a sorted list puts the element before the others of its key and keeps the order among every key's elements |
| `JsLib.SortDescStable` | lib/utils.ts:80 | the sort is stable: for every key, the elements with that key come out in their input order |

## Left out

- The sliding-window rate-limit algorithm and its hosted store are not modelled. The limiter is a parameter that returns the verdict, limit, remaining count and reset time; the atomicity of the shared counter is the store's concern.
- Network and third-party I/O are outside the model: sending the notification e-mail, opening the helpdesk issue, the captcha verification request, the Stripe checkout session and the `/api/youtube/videos` fetch. Their outcomes enter as data (`SiteVerify`, `CheckoutReply`, `FetchOutcome`).
- Foreign library semantics are uninterpreted parameters: `encodeURIComponent`, `URLSearchParams.toString` in the contact route (the player's own `set` and `toString` are modelled by `SetParam` and `Serialize`, for pairs that need no percent-encoding), `new URL`, `gray-matter` parsing and printing, `glob`, the slug function, `Date` parsing, `toFixed(1)` and `Intl` formatting. Only their use is modelled (for example, which unit suffix a view count gets).
- Front-matter parsing and printing are not modelled. A post file is a map entry holding its parsed document, and a cache file that is not valid JSON is not modelled.
- The file system is a map from path to document and reading a missing file gives an error result; the directory scan of `getPosts` is the list of paths passed in.
- Timers are explicit steps: the 1200 ms completion delay is `Tick`, the 4 s autoplay is one `AutoplayTick` call, and the 380 ms renormalise delay is an `OnScroll` call.
- Floating-point pixel arithmetic is not modelled: slide widths and `scrollLeft` rounding in the services carousel, where positions are whole slides. The navigation bars compare scroll offsets as reals; the loading progress is a real.
- Rendering is not modelled: markup, class names other than the ones computed from an index, animations (GSAP, framer-motion, marquee keyframes), the `new Function` MDX evaluation and the DOM query, which is an input list of elements.
- Navigation hover internals of the navbar menu component are not modelled; only `setActive` as it is handed to the menu.
- The startups' monthly revenue series and the revenue card are not modelled, only the list of entries, its partition and the grid spans.
- The carousel's children are fixed per instance; a change of the children while mounted is not modelled.
- JavaScript strings are Dafny strings of characters, not UTF-16 code units, so lengths of text outside the basic plane may differ.
- Header names are matched as given; HTTP header case folding is not modelled.
- Dates that do not parse (`NaN` timestamps) are not modelled; `toTime` returns an integer.
- The contact handler's body fields are strings or absent; bodies whose fields have other JSON types are not modelled.
- `Object.keys` puts integer-like keys first in numeric order; the tag table keeps insertion order for every key, which agrees with it only for non-numeric tags.
- Utils.GetAllTags: counts every tag like any other; in the source a tag named `constructor`, `toString` or `hasOwnProperty` reads an inherited `Object.prototype` member through `tags[tag] ?? 0`, so its count becomes a string, and a tag `__proto__` is not stored as a key.
- Default arguments are not modelled: `getPosts(limit = -1)` and `getFeaturedPosts(limit = 8)` (lib/mdx.ts:158,185) take the limit explicitly.
- The development-only `log(...)` calls of lib/mdx.ts (lines 82-142) are console output and are not modelled.
- A limiter call that rejects (the promise of `limiter.limit()` at middleware.ts:50 failing) is not modelled; the limiter always returns a verdict.
- Startup.DataSplit: states that the two grids together show all eight startups, not the six-and-two split of the example data.
