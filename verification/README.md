# ShortVideo video service, modelled in Dafny

This project models the video half of the ShortVideo backend (Express and
Mongoose) over an abstract MongoDB. The modelled parts are:

- the `Video` and `Comment` schemas, with their defaults, `trim` setters,
  validators and virtual counts;
- the nine handlers of the video controller:
  - the four paginated feeds: recommended, short, long and search;
  - `getVideoById`, `uploadVideo`, `updateVideo`, `deleteVideo` and
    `toggleVideoLike`;
- the first-match route tables of `/api/videos` and `/api/users`;
- one request end to end: routing, the `protect` / `optionalAuth` guard,
  the handler and the 404 fallback of the app.

The database is a value `Store` that holds:

- the videos by id;
- the users' `videos` and `likes` arrays;
- the next id to hand out.

Every handler is a pure function from a store and a request to a new store
and a response. The model never uses a clock: the time of the request, the
caller the auth middleware found, and MongoDB's text index are parameters.

The JavaScript primitives the code relies on are written out in module
`Js`:

- `String.prototype.trim`, with the ECMA-262 WhiteSpace and LineTerminator
  set;
- `split(',')`;
- `parseInt` without a radix, including `0x` and the sign;
- `||` truthiness;
- `length`, counted in UTF-16 code units.

Modules, one per file:

| module | file | part of the backend |
|---|---|---|
| `Common` | common.dfy | option, result and failure kinds (404 / 401 / 500) |
| `Js` | js.dfy | the JavaScript primitives above |
| `VideoModel` | video_model.dfy | `models/Video.js` |
| `CommentModel` | comment_model.dfy | `models/Comment.js` |
| `Storage` | storage.dfy | `findById`, `save`, `$push` / `$pull`, the timestamps plugin, ObjectId casting, the database invariants |
| `Pagination` | pagination.dfy | `page` / `limit` coercion, `skip`, `Math.ceil` |
| `Ordering` | ordering.dfy | `.sort({...})` with descending keys |
| `Feeds` | feeds.dfy | the four feed handlers |
| `Lifecycle` | lifecycle.dfy | get, upload, update, delete |
| `Engagement` | engagement.dfy | `toggleVideoLike` |
| `Router` | router.dfy | Express first-match dispatch |
| `VideoRoutes` | video_routes.dfy | `routes/videoRoutes.js` |
| `UserRoutes` | user_routes.dfy | `routes/userRoutes.js` |
| `VideoServer` | server.dfy | one request to `/api/videos`, end to end |

The database invariant (`Storage.Invariant`) has four parts:

- every id the store mentions was issued, and every stored video passes
  validation;
- a user is in a video's `likes` exactly when the video is in that user's
  `likes`;
- a video is in a user's `videos` exactly when that user created it;
- no likes array, on a video or on a user, holds an id twice.

Every handler keeps this invariant. That holds because no handler reaches
another user's data. Deleting a video does not clean up the ids other
users hold (see below), yet the invariant survives: the video leaves the
map, and the invariant only speaks of stored videos.

### Where the model follows the code over the design description

- **A non-creator gets 401, not 403.** That is what `updateVideo` and
  `deleteVideo` answer when someone other than the creator asks to edit or
  delete a video.
- **`likeCount` in the recommended sort has no effect.** It is a virtual,
  so MongoDB sees no such field and every document ties on it. The order is
  views, then `createdAt`. `Ordering.RecommendedSortIgnoresLikeCount`
  proves this.
- **Tags:**
  - `"a, b ,c"` becomes `["a","b","c"]`;
  - an empty piece (`"a,,b"`) is kept as `""`;
  - an empty tag string is falsy, so it gives `[]` on upload and keeps the
    old tags on update.
- **Category:**
  - an upload with `category: ""` hands `""` to the enum validator, which
    refuses it, so the answer is 500;
  - an update with `category: ""` keeps the old category, because `""` is
    falsy.
- **An upload with `videoType: ""` gets `"short"`.**
- **Odd `page` and `limit` values:**
  - `page=0` and `limit=0` fall back to the defaults, because `0` is falsy;
  - a negative `limit` is passed on to MongoDB, which takes its absolute
    value;
  - `skip` is `(page-1)*limit`, which is negative for a page below 1 with
    a positive limit, or a page above 1 with a negative limit; MongoDB
    rejects a negative skip, so the answer is 500;
  - `page=-1&limit=-10` gives skip 20, which MongoDB accepts, so the
    answer is the third page of ten with `currentPage` -1;
  - `totalPages` is computed with the limit as given, so a negative limit
    gives a non-positive count.
- **HEAD runs the GET routes.** Express serves a HEAD request through the
  GET route for its path, so `HEAD /api/videos/:id` also counts a view.
  The read properties of the server cover HEAD as well as GET.
- **Deleting a video leaves dangling ids.** Other users' `likes` keep its
  id, and its comments are not removed.
- **A like toggle whose save fails still changes the user.** The user's
  `likes` is written first, so that change stays and the handler answers
  500.

## Model

| member | source | states |
|---|---|---|
| Js.Trim | backend/src/models/Video.js:4-9 | the `trim` setter: the result is a slice of the input with only white space outside it and none at either of its ends |
| Js.TrimUnique | backend/src/models/Video.js:7 | trimming has one answer: two strings that are both a trim of the same input are equal |
| Js.TrimIdempotent | backend/src/models/Video.js:52-55 | trimming an already trimmed string gives it back, so the setter re-applied on save changes nothing |
| Js.Split | backend/src/controllers/videoController.js:146 | `split(',')` yields at least one piece, no piece holds a comma, and joining the pieces with commas gives back the input |
| Js.SplitJoin | backend/src/controllers/videoController.js:146 | splitting what was joined with commas gives back the pieces, when none holds a comma |
| Js.Utf16Length | backend/src/models/Video.js:8 | `maxlength` counts UTF-16 units: between one and two per character, exactly one when every character is in the Basic Multilingual Plane, and a single character above U+FFFF counts two |
| Js.Utf16LengthConcat | backend/src/models/Video.js:8 | the unit count of a concatenation is the sum of the counts, so each character counts the same wherever it stands |
| Js.EmojiCountsTwo | backend/src/models/Video.js:8 | `"a"` followed by an emoji is three units long, not two |
| Js.ParseIntOfIntString | backend/src/controllers/videoController.js:9-10 | `parseInt` reads back any printed integer, whatever white space precedes it and whatever non-digit follows it |
| Pagination.IntParam | backend/src/controllers/videoController.js:9-10 | an absent parameter gives the fallback, and with a non-zero fallback the value is never 0 |
| Pagination.IntParamOfNumber | backend/src/controllers/videoController.js:9-10 | a printed integer k gives k, except that 0 gives the fallback; negative values pass through |
| Pagination.IntParamNotNumeric | backend/src/controllers/videoController.js:43-44 | a parameter holding no number gives the fallback |
| Pagination.CeilDiv | backend/src/controllers/videoController.js:29 | `Math.ceil(total / limit)` is the least multiple count covering `total`, for either sign of `limit` |
| Pagination.Window | backend/src/controllers/videoController.js:21-22 | `.skip(k).limit(n)` holds the min(n, remaining) entries that start at position k, in order |
| Pagination.PageOfEntry | backend/src/controllers/videoController.js:11 | with a positive limit, entry k appears on page k/limit+1, which lies within 1..totalPages, at slot k mod limit |
| Pagination.PageBeyondLast | backend/src/controllers/videoController.js:29 | every page past `totalPages` is empty |
| Ordering.PrecedesTotal | backend/src/controllers/videoController.js:16-20 | any two videos are ordered one way or the other under a key list |
| Ordering.PrecedesTransitive | backend/src/controllers/videoController.js:16-20 | the order of a key list is transitive |
| Ordering.Sort | backend/src/controllers/videoController.js:16-20 | the sort returns a permutation of its input that is ordered by the keys |
| Ordering.LikeCountKeyInert | backend/src/models/Video.js:93-95 | the never-stored `likeCount` key leaves the recommended comparison the same as views then `createdAt` |
| Ordering.RecommendedOrderIgnoresLikes | backend/src/controllers/videoController.js:16-20 | changing a video's likes never moves it in the recommended order |
| Ordering.RecommendedSortIgnoresLikeCount | backend/src/controllers/videoController.js:16-20 | the recommended sort equals the sort without the `likeCount` key, on every listing |
| Feeds.Matching | backend/src/controllers/videoController.js:14 | `find(filter)`: exactly the stored videos that pass the filter, each once |
| Feeds.MatchingCount | backend/src/controllers/videoController.js:24 | `countDocuments(filter)` equals the number of videos `find(filter)` lists |
| Feeds.Listing | backend/src/controllers/videoController.js:14-20 | the sorted listing is a permutation of the matches, ordered by the keys, as long as the count |
| Feeds.PageOf | backend/src/controllers/videoController.js:21-22 | `.skip(k).limit(n)` then serialisation: the page holds min(n, remaining) videos, none when k is past the end, and its i-th video is the listing's entry k + i with its virtual counts |
| Feeds.PageSorted | backend/src/controllers/videoController.js:16-22 | a window of a listing sorted by the keys is itself in key order |
| Feeds.PageShows | backend/src/controllers/videoController.js:14-22 | a window of a listing of stored matches shows only stored videos that pass the filter, each as stored |
| Feeds.ServePage | backend/src/controllers/videoController.js:11-31 | with a non-negative skip the answer is the sorted listing's window at `(page-1)*limit` of `abs(limit)` videos, with `currentPage` = page, `totalVideos` = number of matches and `totalPages` = `Math.ceil(totalVideos/limit)` |
| Feeds.Paginate | backend/src/controllers/videoController.js:9-31 | a feed answers 500 exactly when `(page-1)*limit` is negative; otherwise it answers the window of the sorted matches at that skip, of length min(abs(limit), matches past the skip), with the three counters |
| Feeds.EveryMatchIsPaged | backend/src/controllers/videoController.js:9-31 | with a positive limit, every matching video is listed on some page from 1 to `totalPages` |
| Feeds.PageParam | backend/src/controllers/videoController.js:9 | the page number a client writes is the page it is served |
| Feeds.NewestFirst | backend/src/controllers/videoController.js:52 | a listing ordered by `createdAt: -1` has non-increasing creation times |
| Feeds.ShortNewestFirst | backend/src/controllers/videoController.js:52-54 | every page of the short feed lists its videos newest first |
| Feeds.LongNewestFirst | backend/src/controllers/videoController.js:87-89 | every page of the long feed lists its videos newest first |
| Feeds.SearchNewestFirst | backend/src/controllers/videoController.js:298-300 | every page of search results lists its videos newest first |
| Feeds.FirstOfThreePages | backend/src/controllers/videoController.js:9-31 | 25 public videos with `page=1&limit=10` give 10 videos, `totalPages` 3 and `totalVideos` 25 |
| Feeds.GetRecommendedVideos | backend/src/controllers/videoController.js:7-36 | the recommended feed answers, for the parsed `page` and `limit` (default 10), the window at `(page-1)*limit` of the public videos sorted by views then creation time, with the counters; 500 for a negative skip |
| Feeds.GetShortVideos | backend/src/controllers/videoController.js:41-71 | the short feed answers the window at `(page-1)*limit` (default limit 20) of the public short videos sorted by `createdAt` descending, of length min(abs(limit), remaining), with the counters; 500 for a negative skip |
| Feeds.GetLongVideos | backend/src/controllers/videoController.js:76-106 | the long feed answers the window at `(page-1)*limit` (default limit 10) of the public long videos sorted by `createdAt` descending, of length min(abs(limit), remaining), with the counters; 500 for a negative skip |
| Feeds.SearchVideos | backend/src/controllers/videoController.js:275-314 | search answers the window at `(page-1)*limit` of the public videos that meet every truthy parameter (text, category, type), sorted by `createdAt` descending, with the counters; 500 for a negative skip |
| VideoModel.ParseCategory | backend/src/models/Video.js:47-51 | the category enum accepts a string only when it names a category, which it returns |
| VideoModel.CategoryEnum | backend/src/models/Video.js:47-51 | a string passes the category enum exactly when it is that category's name |
| VideoModel.VideoTypeEnum | backend/src/models/Video.js:77-81 | a string passes the type enum exactly when it is `short` or `long` |
| VideoModel.TrimAll | backend/src/models/Video.js:52-55 | each tag is trimmed on assignment, and the tag count is kept |
| VideoModel.Cast | backend/src/models/Video.js:3-84 | a new document exists exactly when title, URL and creator are given and both enum paths hold members; it carries the trimmed title and tags, every declared default and both timestamps |
| VideoModel.Create | backend/src/models/Video.js:4-81 | `Video.create` succeeds exactly when every validator passes (required, trimmed title 1..100, description at most 500, enums), and the saved document is the cast one |
| VideoModel.RequiredPaths | backend/src/models/Video.js:64-68 | a draft without title, URL or creator is refused |
| VideoModel.ToJson | backend/src/models/Video.js:93-104 | the serialised video carries `likeCount` = number of likes and `commentCount` = number of comments |
| CommentModel.Create | backend/src/models/Comment.js:3-47 | a comment is created exactly when its trimmed content is 1..1000 units and author and video are given; likes and replies are empty, both flags false, the parent is kept |
| CommentModel.ToJson | backend/src/models/Comment.js:55-62 | the serialised comment carries `likeCount` and `replyCount` equal to its array lengths |
| Storage.Pull | backend/src/controllers/videoController.js:247 | `$pull` and `filter(!=)` remove every copy of the id, keep every other id and their multiplicities, and shorten by the number removed |
| Storage.PullPushed | backend/src/controllers/videoController.js:247-256 | pulling an id just pushed onto an array that lacked it gives the array back |
| Storage.PullLikePushed | backend/src/controllers/videoController.js:248-256 | pulling a like just pushed gives back every user as they were |
| Storage.PullPushNoRepeats | backend/src/controllers/videoController.js:247-256 | `$pull` never creates a repeat, and pushing an id the array lacks creates none |
| Storage.ResaveKeepsInvariant | backend/src/controllers/videoController.js:122-123 | re-saving a stored video that passes validation, with the same likes and creator, keeps the database invariant |
| Storage.UpdateUser | backend/src/controllers/videoController.js:152-154 | `findByIdAndUpdate` changes only the named user, and a missing user is no change |
| Storage.SaveVideo | backend/src/controllers/videoController.js:190 | `save()` stores the document exactly when it passes validation, and otherwise touches nothing |
| Storage.Stamp | backend/src/models/Video.js:82-84 | the timestamps plugin sets `updatedAt` to the save time only when some path changed |
| Storage.CastIdOfNatString | backend/src/controllers/videoController.js:113 | every id casts back from its own text |
| Storage.FindVideo | backend/src/controllers/videoController.js:113-119 | a segment that is not an id is a 500 (cast error), an unknown id a 404, and a stored id is found |
| Storage.FindStored | backend/src/controllers/videoController.js:113 | a stored video is found by its printed id |
| Lifecycle.TagsOr | backend/src/controllers/videoController.js:146 | tags from a truthy string are its comma pieces, each trimmed; a falsy one gives the fallback |
| Lifecycle.TagsRoundTrip | backend/src/controllers/videoController.js:146 | trimmed tags without commas, joined with commas, come back unchanged |
| Lifecycle.TagsStable | backend/src/models/Video.js:52-55 | the tags a request produces are already trimmed, so the schema's setter leaves them as they are |
| Lifecycle.GetVideoById | backend/src/controllers/videoController.js:111-130 | a found, valid video gets one more view and is returned with its counts; each failure leaves the database unchanged |
| Lifecycle.ViewCounts | backend/src/controllers/videoController.js:122-123 | two views of a stored video add exactly two, and nothing else changes but `updatedAt` |
| Lifecycle.GetKeepsInvariant | backend/src/controllers/videoController.js:111-130 | a view keeps the database invariant |
| Lifecycle.UploadVideo | backend/src/controllers/videoController.js:135-164 | upload succeeds exactly when the schema accepts the draft; the stored video is the one `Video.create` builds from the draft, under a fresh id, with the placeholders, trimmed tags, zero duration, views and shares, empty location and the default language; its id is pushed onto the caller's `videos`; a refusal changes nothing |
| Lifecycle.UploadNeedsOnlyTitle | backend/src/controllers/videoController.js:140-149 | an upload fails only for a missing or blank title, a title or description over its length, or a category or type outside its enum |
| Lifecycle.UploadKeepsInvariant | backend/src/controllers/videoController.js:140-154 | an upload keeps the database invariant |
| Lifecycle.Edit | backend/src/controllers/videoController.js:184-188 | each truthy field replaces its path and each falsy one keeps it, `isPublic` whenever it is given, and no other path changes; an unknown category is refused |
| Lifecycle.EditIdempotent | backend/src/controllers/videoController.js:184-188 | applying the same edits twice is applying them once |
| Lifecycle.UpdateVideo | backend/src/controllers/videoController.js:169-200 | only the creator may edit (else 401); the saved video is the edited one, stamped only if it changed, with creator, type, counters and `createdAt` kept; every failure leaves the database unchanged |
| Lifecycle.UpdateTwice | backend/src/controllers/videoController.js:184-190 | resending the same update changes nothing, `updatedAt` included |
| Lifecycle.UpdateKeepsInvariant | backend/src/controllers/videoController.js:169-200 | an update keeps the database invariant |
| Lifecycle.DeleteVideo | backend/src/controllers/videoController.js:205-230 | only the creator may delete (else 401); the video leaves the store and its id leaves the caller's `videos`; nothing else changes |
| Lifecycle.DeleteKeepsInvariant | backend/src/controllers/videoController.js:218-223 | a delete keeps the database invariant |
| Lifecycle.DeleteUndoesUpload | backend/src/controllers/videoController.js:218-223 | deleting a video right after uploading it restores the database, apart from the id used up |
| Engagement.ToggleVideoLike | backend/src/controllers/videoController.js:235-270 | the caller's like flips on both the video and the user and nothing else moves; the answer reports the new state and count; a failed save leaves the video unchanged |
| Engagement.FlipChanges | backend/src/controllers/videoController.js:243-256 | a toggle always changes the likes array, and the caller is in it afterwards exactly when they were not before |
| Engagement.ToggleKeepsInvariant | backend/src/controllers/videoController.js:243-259 | a toggle keeps the two sides of every like in agreement |
| Engagement.LikeThenUnlike | backend/src/controllers/videoController.js:243-265 | liking and then unliking gives back the database (apart from `updatedAt`) and the original like count |
| Engagement.ToggleTwiceRestoresLike | backend/src/controllers/videoController.js:243-265 | two toggles succeed and leave both likes arrays with the same members and multiplicities as before, and the second answer reports the original like state and count |
| Engagement.ToggledLikesUnique | backend/src/controllers/videoController.js:243-256 | the `includes` check before `push` means a toggle never puts a repeated id into a likes array |
| Engagement.RelikeRestores | backend/src/controllers/videoController.js:247-256 | pulling a like and pushing it back gives the same members and the same length, when the array held no repeats |
| Engagement.FirstLikeThenUnlike | backend/src/controllers/videoController.js:261-265 | on an unliked video the two answers are `liked` with count 1, then `unliked` with count 0 |
| Router.Dispatch | backend/src/routes/videoRoutes.js:17-27 | a request reaches the first registered route that takes its method and path, and no route when none does |
| Router.DispatchFirst | backend/src/routes/videoRoutes.js:17-27 | a route that takes the request is the one served exactly when no earlier route takes it |
| Router.Shadowed | backend/src/routes/userRoutes.js:17-20 | a route whose requests an earlier route of the same method all takes is never reached |
| Router.HeadFollowsGet | backend/src/routes/videoRoutes.js:17-21 | in a table with no HEAD route of its own, a HEAD request is served by the route a GET to the same path gets |
| Router.ParamValue | backend/src/routes/videoRoutes.js:21-27 | `req.params.id` is the path segment in the `:id` position |
| VideoRoutes.Resolve | backend/src/routes/videoRoutes.js:17-27 | a request to `/api/videos` reaches one of the nine routes exactly when one takes it |
| VideoRoutes.GuardsByMethod | backend/src/routes/videoRoutes.js:17-27 | every GET and HEAD sits behind `optionalAuth` and every other method behind `protect` |
| VideoRoutes.HeadIsGet | backend/src/routes/videoRoutes.js:17-21 | a HEAD request to `/api/videos` reaches the same route a GET does |
| VideoRoutes.TableShape | backend/src/routes/videoRoutes.js:17-27 | the guard follows the method, and upload, update and delete are protected writes |
| VideoRoutes.ReadHandlers | backend/src/routes/videoRoutes.js:17-21 | the GET routes are the four feeds and `getVideoById` |
| VideoRoutes.FeedsBeforeId | backend/src/routes/videoRoutes.js:17-21 | `/recommended`, `/short`, `/long` and `/search` in any letter case reach their feed, never `getVideoById` |
| VideoRoutes.IdRouteCatchesTheRest | backend/src/routes/videoRoutes.js:17-21 | `getVideoById` serves exactly the one-segment GETs that name none of the feeds |
| VideoRoutes.EachHandlerBoundOnce | backend/src/routes/videoRoutes.js:3-27 | each of the nine controller functions is bound by exactly one route |
| VideoRoutes.EveryHandlerReachable | backend/src/routes/videoRoutes.js:17-27 | no video route is shadowed: each handler serves some request |
| UserRoutes.Resolve | backend/src/routes/userRoutes.js:15-23 | a request to `/api/users` reaches a route exactly when one takes it |
| UserRoutes.RegisterAndLoginOpen | backend/src/routes/userRoutes.js:15-16 | register and login are reachable without a token |
| UserRoutes.ProfileIsAnId | backend/src/routes/userRoutes.js:17-20 | every path `GET /profile` takes is also taken by `GET /:id` |
| UserRoutes.ProfileShadowed | backend/src/routes/userRoutes.js:17-20 | every one-segment GET, `/profile` included, reaches the unguarded `getUserById`; the `getUserProfile` route is never reached |
| UserRoutes.CorrectedProfileReachable | backend/src/routes/userRoutes.js:17-20 | with `/profile` registered first, `GET /profile` reaches the protected `getUserProfile` and every other one-segment GET still reaches `getUserById` |
| UserRoutes.UpdateProfileReachable | backend/src/routes/userRoutes.js:21 | a PUT is served exactly at `/profile`, by the protected `updateUserProfile` |
| UserRoutes.FollowPair | backend/src/routes/userRoutes.js:22-23 | follow and unfollow share `/:id/follow`, both protected, told apart by method |
| UserRoutes.EachHandlerBoundOnce | backend/src/routes/userRoutes.js:3-23 | each of the seven user-controller functions is bound by exactly one route |
| VideoServer.Handle | backend/src/controllers/videoController.js:159-216 | only update and delete answer 401, only a successful upload answers 201, and each handler changes the database as its controller function does |
| VideoServer.Serve | backend/src/app.js:45-59 | an unrouted request is a 404 and an anonymous request to a protected route a 401, both changing nothing; a GET or HEAD is never a 401; 201 comes exactly from an accepted upload |
| VideoServer.AnonymousWritesChangeNothing | backend/src/routes/videoRoutes.js:24-27 | without a token no request other than a GET or HEAD changes the database: it is refused with 401 or 404 |
| VideoServer.FeedExchange | backend/src/controllers/videoController.js:7-36 | a feed route answers 200 or 500 and never writes to the database |
| VideoServer.HandleKeepsInvariant | backend/src/controllers/videoController.js:111-270 | each controller function, once reached, keeps the database invariant |
| VideoServer.ServeKeepsInvariant | backend/src/controllers/videoController.js:111-270 | every request keeps the database invariant |
| VideoServer.OthersVideosSafe | backend/src/controllers/videoController.js:178-216 | a request from anyone but the creator leaves the video in place; only its likes, one more view and `updatedAt` may differ |
| VideoServer.ImmutableFields | backend/src/controllers/videoController.js:184-188 | a video's creator, type and creation time never change while it exists |
| VideoServer.ReadsOnlyCountViews | backend/src/routes/videoRoutes.js:17-21 | a GET or HEAD adds or removes no video, changes no user, and leaves each video as it was or with one more view |

## Findings

| source | as written | input that shows it | evidently intended | confidence | as-written member | corrected member |
|---|---|---|---|---|---|---|
| backend/src/routes/userRoutes.js:17-20 | `GET /:id` is registered before `GET /profile`, so the first match takes every one-segment GET | `GET /api/users/profile` reaches `getUserById` with id `profile`, with no token check | `GET /profile` reaches the protected `getUserProfile`, and other ids still reach `getUserById` | high, not executed | UserRoutes.ProfileShadowed | UserRoutes.CorrectedProfileReachable |

The video routes have no such defect: `VideoRoutes.EveryHandlerReachable`
shows that each handler is reached.

## Left out

- The user controller and the `User` model are not part of this model. Only the `videos` and `likes` arrays of a user are modelled, which are the parts the video controller writes.
- The `protect` and `optionalAuth` middleware are not part of this model either. The caller is the user id the middleware would attach, or none. A request with a bad token is taken as one without a token.
- `populate('creator', ...)`: responses carry the creator's id, not the joined user fields.
- MongoDB's `$text` search is a parameter `textMatch`, because the text index's tokenisation is outside the backend's code.
- Sort ties: the model fixes some order for documents that are equal on every key, and MongoDB gives none, so no contract depends on the order of ties.
- Feeds.GetRecommendedVideos: the feeds are stated against the model's own sorted listing, which breaks ties in a fixed way. A page is that listing's window at `skip`, and MongoDB's window can hold different tied documents. The key order of each page, its length, its counters and its filter do not depend on ties.
- Concurrency: the handlers' separate awaits are taken as running without interleaving, so races between requests are not modelled.
- The try/catch: MongoDB and network errors other than cast and validation errors are not modelled.
- Request values that are arrays, objects, numbers or `null` (from repeated query keys or JSON bodies) are not modelled. Query and body fields are strings or absent, and `isPublic` is a boolean or absent.
- ObjectIds are modelled as natural numbers written in decimal, handed out in increasing order. A segment that is not such a number is the cast error, which gives 500.
- Id casting: a segment with leading zeros is refused as not canonical. An ObjectId cast has no such notion.
- Comment documents are modelled as the schema defines them, but no handler in the video controller creates or changes them. A video's `comments` array is only read, through its count.
- The frontend and mobile clients are not modelled, and neither are the static file routes, CORS, the health check or the error middleware of `app.js`.
- Express's case-insensitive literal matching is modelled with ASCII case folding only.
- Express's trailing-slash and URL-decoding rules are not modelled: paths arrive already split into decoded segments.
- Js.ParseInt: the digits are read as an exact integer. JavaScript's `parseInt` gives a double, which rounds past about 2^53 and becomes `Infinity` past about 309 digits.
- Pagination.Skip: `(page-1)*limit` is exact integer arithmetic here, while JavaScript computes it in doubles, so very large parameters round differently.
- Pagination.CeilDiv: `Math.ceil(total / limit)` is exact integer division here, with no floating-point rounding and no `Infinity`.
- VideoServer.Serve: a HEAD request runs the GET route, status and database effects included (one more view on `/:id`). The model keeps the response body, which Node does not send for HEAD.
- VideoServer.Serve: on routes without `protect`, the handlers ignore the caller, so an anonymous request passes id 0 there to no effect.
- Video `duration`, `shares`, `dislikes`, `location`, `language` and `isMonetized` are modelled only as their defaults, because no modelled handler writes them.
