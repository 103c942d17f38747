/** The four feed handlers of the video controller: `getRecommendedVideos`,
    `getShortVideos`, `getLongVideos` and `searchVideos`. Each filters the
    stored videos, sorts them, cuts one page out with `.skip().limit()`, and
    counts the filter's matches separately. */
module Feeds {
  import opened Common
  import opened Js
  import opened VideoModel
  import opened Storage
  import opened Pagination
  import opened Ordering

  /** The query string of a feed request. */
  datatype FeedQuery = FeedQuery(page: Option<string>, limit: Option<string>)

  /** The query string of a search request. */
  datatype SearchQuery = SearchQuery(
    q: Option<string>,
    category: Option<string>,
    videoType: Option<string>,
    page: Option<string>,
    limit: Option<string>)

  /** The JSON body of a feed response. */
  datatype Page = Page(videos: seq<VideoJson>, currentPage: int, totalPages: int, totalVideos: nat)

  // ---------------------------------------------------------------- listing

  /** Descending from any member reaches the least one. */
  lemma {:induction false} LeastFrom(ids: set<nat>, y: nat) returns (m: nat)
    requires y in ids
    ensures m in ids && forall x :: x in ids ==> m <= x
    decreases y
  {
    if z :| z in ids && z < y {
      m := LeastFrom(ids, z);
    } else {
      m := y;
    }
  }

  lemma MinExists(ids: set<nat>)
    requires ids != {}
    ensures exists m :: m in ids && forall x :: x in ids ==> m <= x
  {
    var y :| y in ids;
    var m := LeastFrom(ids, y);
  }

  /** The ids of a set in ascending order: the order the model gives a
      collection scan, before any sort. */
  function IdsAscending(ids: set<nat>): (r: seq<nat>)
    ensures forall i, j :: 0 <= i < j < |r| ==> r[i] < r[j]
    ensures forall x :: x in r <==> x in ids
    decreases ids
  {
    if ids == {} then []
    else
      MinExists(ids);
      var m :| m in ids && forall x :: x in ids ==> m <= x;
      [m] + IdsAscending(ids - {m})
  }

  /** The videos among `ids` that pass `keep`, in the order of `ids`. */
  function Select(videos: map<VideoId, Video>, ids: seq<VideoId>, keep: Video -> bool): (r: seq<Entry>)
    requires forall i :: 0 <= i < |ids| ==> ids[i] in videos
    ensures forall i :: 0 <= i < |r| ==>
      r[i].id in ids && r[i].id in videos && videos[r[i].id] == r[i].doc && keep(r[i].doc)
    ensures forall i :: 0 <= i < |ids| && keep(videos[ids[i]]) ==> Entry(ids[i], videos[ids[i]]) in r
    ensures (forall i, j :: 0 <= i < j < |ids| ==> ids[i] < ids[j]) ==>
      forall i, j :: 0 <= i < j < |r| ==> r[i].id < r[j].id
  {
    if |ids| == 0 then []
    else
      var rest := Select(videos, ids[1..], keep);
      var id := ids[0];
      if keep(videos[id]) then
        var r := [Entry(id, videos[id])] + rest;
        assert forall i :: 0 < i < |r| ==> r[i] == rest[i - 1];
        r
      else
        rest
  }

  /** The ids of the stored videos that pass `keep`: what `countDocuments`
      counts. */
  ghost function MatchIds(s: Store, keep: Video -> bool): set<VideoId> {
    set id | id in s.videos && keep(s.videos[id])
  }

  /** The stored videos that pass `keep`, in ascending id order. */
  function Matching(s: Store, keep: Video -> bool): (r: seq<Entry>)
    ensures forall i :: 0 <= i < |r| ==> r[i].id in s.videos && s.videos[r[i].id] == r[i].doc && keep(r[i].doc)
    ensures forall id :: id in MatchIds(s, keep) ==> Entry(id, s.videos[id]) in r
    ensures forall i, j :: 0 <= i < j < |r| ==> r[i].id < r[j].id
  {
    Select(s.videos, IdsAscending(s.videos.Keys), keep)
  }

  ghost function IdsOf(r: seq<Entry>): set<VideoId> {
    set i | 0 <= i < |r| :: r[i].id
  }

  lemma {:induction false} IncreasingIdsCount(r: seq<Entry>)
    requires forall i, j :: 0 <= i < j < |r| ==> r[i].id < r[j].id
    ensures |IdsOf(r)| == |r|
  {
    if |r| > 0 {
      IncreasingIdsCount(r[1..]);
      IdsOfCons(r);
      forall i | 0 <= i < |r[1..]| ensures r[1..][i].id != r[0].id {
        assert r[1..][i] == r[i + 1];
      }
      assert r[0].id !in IdsOf(r[1..]);
    }
  }

  lemma IdsOfCons(r: seq<Entry>)
    requires |r| > 0
    ensures IdsOf(r) == {r[0].id} + IdsOf(r[1..])
  {
    forall x | x in IdsOf(r) ensures x in {r[0].id} + IdsOf(r[1..]) {
      var i :| 0 <= i < |r| && r[i].id == x;
      if i > 0 { assert r[1..][i - 1].id == x; }
    }
    forall x | x in IdsOf(r[1..]) ensures x in IdsOf(r) {
      var i :| 0 <= i < |r[1..]| && r[1..][i].id == x;
      assert r[i + 1].id == x;
    }
  }

  lemma IdIndex(r: seq<Entry>, id: VideoId) returns (k: nat)
    requires id in IdsOf(r)
    ensures k < |r| && r[k].id == id
  {
    k :| 0 <= k < |r| && r[k].id == id;
  }

  lemma MatchesListed(s: Store, keep: Video -> bool)
    ensures MatchIds(s, keep) <= IdsOf(Matching(s, keep))
  {
    var r := Matching(s, keep);
    forall id | id in MatchIds(s, keep) ensures id in IdsOf(r) {
      assert Entry(id, s.videos[id]) in r;
      var k :| 0 <= k < |r| && r[k] == Entry(id, s.videos[id]);
      assert r[k].id == id;
    }
  }

  lemma ListedMatch(s: Store, keep: Video -> bool)
    ensures IdsOf(Matching(s, keep)) <= MatchIds(s, keep)
  {
    var r := Matching(s, keep);
    forall id | id in IdsOf(r) ensures id in MatchIds(s, keep) {
      var k := IdIndex(r, id);
      assert r[k].id in s.videos && s.videos[r[k].id] == r[k].doc && keep(r[k].doc);
    }
  }

  /** The listing holds one entry per match, so its length is the count. */
  lemma MatchingCount(s: Store, keep: Video -> bool)
    ensures |Matching(s, keep)| == |MatchIds(s, keep)|
  {
    var r := Matching(s, keep);
    var ids := MatchIds(s, keep);
    IncreasingIdsCount(r);
    MatchesListed(s, keep);
    ListedMatch(s, keep);
    assert IdsOf(r) == ids;
  }

  /** The full ordered listing a feed pages through. */
  function Listing(s: Store, keep: Video -> bool, keys: seq<SortKey>): (r: seq<Entry>)
    ensures SortedBy(keys, r)
    ensures multiset(r) == multiset(Matching(s, keep))
    ensures |r| == |MatchIds(s, keep)|
  {
    MatchingCount(s, keep);
    var r := Sort(keys, Matching(s, keep));
    assert |r| == |multiset(r)|;
    r
  }

  /** Every entry of the listing is a stored match. */
  lemma ListingStored(s: Store, keep: Video -> bool, keys: seq<SortKey>, k: nat)
    requires k < |Listing(s, keep, keys)|
    ensures var e := Listing(s, keep, keys)[k];
      e.id in s.videos && s.videos[e.id] == e.doc && keep(e.doc)
  {
    var listing := Listing(s, keep, keys);
    assert listing[k] in multiset(listing);
    assert listing[k] in Matching(s, keep);
  }

  function Render(entries: seq<Entry>): (r: seq<VideoJson>)
    ensures |r| == |entries|
    ensures forall i :: 0 <= i < |r| ==> r[i] == ToJson(entries[i].id, entries[i].doc)
  {
    seq(|entries|, i requires 0 <= i < |entries| => ToJson(entries[i].id, entries[i].doc))
  }

  // ---------------------------------------------------------------- pages

  /** `j` is a stored video that passes `keep`, serialised with its virtuals. */
  ghost predicate Shows(s: Store, keep: Video -> bool, j: VideoJson) {
    && j.id in s.videos && s.videos[j.id] == j.video && keep(j.video)
    && j.likeCount == |j.video.likes| && j.commentCount == |j.video.comments|
  }

  /** `e` is a stored video that passes `keep`. */
  ghost predicate StoredMatch(s: Store, keep: Video -> bool, e: Entry) {
    e.id in s.videos && s.videos[e.id] == e.doc && keep(e.doc)
  }

  lemma ListingAllStored(s: Store, keep: Video -> bool, keys: seq<SortKey>)
    ensures var listing := Listing(s, keep, keys);
      forall k :: 0 <= k < |listing| ==> StoredMatch(s, keep, listing[k])
  {
    var listing := Listing(s, keep, keys);
    forall k | 0 <= k < |listing| ensures StoredMatch(s, keep, listing[k]) {
      ListingStored(s, keep, keys, k);
    }
  }

  /** The videos `.skip(skip).limit(count)` returns from a listing: the
      `count` entries from position `skip` on (fewer only at its end),
      serialised with their virtuals. */
  function PageOf(listing: seq<Entry>, skip: nat, count: nat): (r: seq<VideoJson>)
    ensures |r| <= count
    ensures |r| == (if skip >= |listing| then 0 else Min(count, |listing| - skip))
    ensures forall i :: 0 <= i < |r| ==>
      r[i] == ToJson(listing[skip + i].id, listing[skip + i].doc)
    ensures forall i :: 0 <= i < |r| ==> r[i].id == listing[skip + i].id
  {
    Render(Window(listing, skip, count))
  }

  /** Each video of `videos` is the listing's entry at its own position
      counted from `skip`. */
  ghost predicate AtSkip(listing: seq<Entry>, skip: int, videos: seq<VideoJson>) {
    forall i :: 0 <= i < |videos| ==>
      0 <= skip + i < |listing| && videos[i].id == listing[skip + i].id
  }

  /** Every video of `videos` shows a stored match. */
  ghost predicate ShowsAll(s: Store, keep: Video -> bool, videos: seq<VideoJson>) {
    forall i :: 0 <= i < |videos| ==> Shows(s, keep, videos[i])
  }

  /** `videos` are in the order of the sort keys. */
  ghost predicate InKeyOrder(keys: seq<SortKey>, videos: seq<VideoJson>) {
    forall i, j :: 0 <= i < j < |videos| ==> Precedes(keys, videos[i].video, videos[j].video)
  }

  lemma PageAtSkip(listing: seq<Entry>, skip: nat, count: nat)
    ensures AtSkip(listing, skip, PageOf(listing, skip, count))
  {
  }

  /** A page cut from a sorted listing is in key order. */
  lemma PageSorted(keys: seq<SortKey>, listing: seq<Entry>, skip: nat, count: nat)
    requires SortedBy(keys, listing)
    ensures InKeyOrder(keys, PageOf(listing, skip, count))
  {
    var r := PageOf(listing, skip, count);
    forall i, j | 0 <= i < j < |r| ensures Precedes(keys, r[i].video, r[j].video) {
      assert r[i].video == listing[skip + i].doc && r[j].video == listing[skip + j].doc;
    }
  }

  /** A page cut from stored matches shows stored matches. */
  lemma PageShows(s: Store, keep: Video -> bool, listing: seq<Entry>, skip: nat, count: nat)
    requires forall k :: 0 <= k < |listing| ==> StoredMatch(s, keep, listing[k])
    ensures ShowsAll(s, keep, PageOf(listing, skip, count))
  {
    var r := PageOf(listing, skip, count);
    forall i | 0 <= i < |r| ensures Shows(s, keep, r[i]) {
      assert StoredMatch(s, keep, listing[skip + i]);
    }
  }

  /** A page answer for the coerced `page` = `p` and `limit` = `l`: the `|l|`
      matching videos that start at position `skip` of the sorted listing
      (fewer only at its end), `currentPage = p`, `totalVideos` the number
      of matches and `totalPages = ceil(totalVideos / l)`. */
  ghost predicate PageAnswer(s: Store, keep: Video -> bool, keys: seq<SortKey>, p: int, l: int, page: Page)
    requires l != 0
  {
    var listing := Listing(s, keep, keys);
    && page.currentPage == p
    && |page.videos| <= Abs(l)
    && page.totalVideos == |MatchIds(s, keep)|
    && page.totalPages == CeilDiv(page.totalVideos, l)
    && |listing| == page.totalVideos
    && |page.videos| == (if Skip(p, l) >= |listing| then 0
                         else Min(Abs(l), |listing| - Skip(p, l)))
    && AtSkip(listing, Skip(p, l), page.videos)
    && ShowsAll(s, keep, page.videos)
    && InKeyOrder(keys, page.videos)
  }

  /** What every feed promises, once its filter, keys and default limit are
      fixed: `page` and `limit` coerced from the query, a 500 exactly when
      the skip is negative (MongoDB refuses it), otherwise the page answer
      for the coerced numbers. */
  ghost predicate Answers(
    s: Store, keep: Video -> bool, keys: seq<SortKey>,
    page: Option<string>, limit: Option<string>, defaultLimit: int, r: Result<Page>)
  {
    var p := IntParam(page, 1);
    var l := IntParam(limit, defaultLimit);
    && (r.Fail? <==> Skip(p, l) < 0)
    && (r.Fail? ==> r.failure == ServerError)
    && (r.Ok? ==> l != 0 && PageAnswer(s, keep, keys, p, l, r.value))
  }

  /** The page served for page `p` and limit `l`. */
  function ServePage(s: Store, keep: Video -> bool, keys: seq<SortKey>, p: int, l: int): (page: Page)
    requires l != 0 && Skip(p, l) >= 0
    ensures PageAnswer(s, keep, keys, p, l, page)
  {
    var listing := Listing(s, keep, keys);
    var skip := Skip(p, l);
    ListingAllStored(s, keep, keys);
    PageSorted(keys, listing, skip, Abs(l));
    PageShows(s, keep, listing, skip, Abs(l));
    PageAtSkip(listing, skip, Abs(l));
    var videos := PageOf(listing, skip, Abs(l));
    Page(videos, p, CeilDiv(|listing|, l), |listing|)
  }

  /** The shared body of the feed handlers. A negative `limit` reaches the
      driver, which returns at most `|limit|` documents in one batch. */
  function Paginate(
    s: Store, keep: Video -> bool, keys: seq<SortKey>,
    page: Option<string>, limit: Option<string>, defaultLimit: int): (r: Result<Page>)
    requires defaultLimit > 0
    ensures Answers(s, keep, keys, page, limit, defaultLimit, r)
  {
    var p := IntParam(page, 1);
    var l := IntParam(limit, defaultLimit);
    if Skip(p, l) < 0 then Fail(ServerError)
    else Ok(ServePage(s, keep, keys, p, l))
  }

  /** With a positive limit, every matching video is shown on one of the
      pages 1..totalPages. */
  lemma EveryMatchIsPaged(
    s: Store, keep: Video -> bool, keys: seq<SortKey>,
    limit: Option<string>, defaultLimit: int, id: VideoId)
    requires defaultLimit > 0 && IntParam(limit, defaultLimit) > 0
    requires id in s.videos && keep(s.videos[id])
    ensures exists p ::
      1 <= p <= CeilDiv(|MatchIds(s, keep)|, IntParam(limit, defaultLimit)) &&
      Lists(Paginate(s, keep, keys, Some(IntString(p)), limit, defaultLimit), id)
  {
    assert id in MatchIds(s, keep);
    var l := IntParam(limit, defaultLimit);
    var listing := Listing(s, keep, keys);
    var k := ListedAt(s, keep, keys, id);
    var p, slot := EntrySlot(listing, l, k);
    PageParam(p);
    SlotServed(s, keep, keys, p, l, slot, k);
    var r := Paginate(s, keep, keys, Some(IntString(p)), limit, defaultLimit);
    assert r == Ok(ServePage(s, keep, keys, p, l));
    assert r.value.videos[slot].id == id;
  }

  /** Entry `k` of a listing sits on page `p` at `slot`, with `p` between 1
      and the page count. */
  lemma EntrySlot(listing: seq<Entry>, l: int, k: nat) returns (p: int, slot: nat)
    requires l > 0 && k < |listing|
    ensures 1 <= p <= CeilDiv(|listing|, l)
    ensures Skip(p, l) >= 0 && slot < l && Skip(p, l) + slot == k
  {
    PageOfEntry(listing, l, k);
    p := k / l + 1;
    SkipOfPage(k, l);
    slot := k % l;
  }

  /** Slot `slot` of a page holds the listing's entry at `skip + slot`. */
  lemma SlotServed(s: Store, keep: Video -> bool, keys: seq<SortKey>, p: int, l: int, slot: nat, k: nat)
    requires l > 0 && Skip(p, l) >= 0 && slot < l && Skip(p, l) + slot == k < |Listing(s, keep, keys)|
    ensures var videos := ServePage(s, keep, keys, p, l).videos;
      slot < |videos| && videos[slot].id == Listing(s, keep, keys)[k].id
  {
    var listing := Listing(s, keep, keys);
    var skip := Skip(p, l);
    PageSlot(listing, skip, l, slot);
    assert ServePage(s, keep, keys, p, l).videos == PageOf(listing, skip, Abs(l));
  }

  lemma PageSlot(listing: seq<Entry>, skip: nat, count: nat, slot: nat)
    requires slot < count && skip + slot < |listing|
    ensures var r := PageOf(listing, skip, count);
      slot < |r| && r[slot].id == listing[skip + slot].id
  {
  }

  lemma SkipOfPage(k: nat, l: int)
    requires l > 0
    ensures Skip(k / l + 1, l) + k % l == k
    ensures 0 <= Skip(k / l + 1, l) && 0 <= k % l < l
  {
    assert k == (k / l) * l + k % l;
    assert (k / l) * l >= 0;
  }

  /** The page number a client writes is the page the handler serves. */
  lemma PageParam(p: int)
    requires p >= 1
    ensures IntParam(Some(IntString(p)), 1) == p
  {
    IntParamOfNumber("", p, "", 1);
    assert "" + IntString(p) + "" == IntString(p);
  }

  /** The response lists the video `id`. */
  ghost predicate Lists(r: Result<Page>, id: VideoId) {
    r.Ok? && exists i :: 0 <= i < |r.value.videos| && r.value.videos[i].id == id
  }

  /** Every match has a place in the sorted listing. */
  lemma ListedAt(s: Store, keep: Video -> bool, keys: seq<SortKey>, id: VideoId) returns (k: nat)
    requires id in MatchIds(s, keep)
    ensures k < |Listing(s, keep, keys)| && Listing(s, keep, keys)[k].id == id
  {
    var listing := Listing(s, keep, keys);
    var e := Entry(id, s.videos[id]);
    MatchListed(s, keep, id);
    MatchSorted(s, keep, keys, e);
    k := IndexOf(listing, e);
  }

  lemma IndexOf(s: seq<Entry>, e: Entry) returns (k: nat)
    requires e in multiset(s)
    ensures k < |s| && s[k] == e
  {
    assert e in s;
    k :| 0 <= k < |s| && s[k] == e;
  }

  lemma MatchSorted(s: Store, keep: Video -> bool, keys: seq<SortKey>, e: Entry)
    requires e in Matching(s, keep)
    ensures e in multiset(Listing(s, keep, keys))
  {
    assert e in multiset(Matching(s, keep));
  }

  lemma MatchListed(s: Store, keep: Video -> bool, id: VideoId)
    requires id in MatchIds(s, keep)
    ensures Entry(id, s.videos[id]) in Matching(s, keep)
  {
  }

  // ---------------------------------------------------------------- handlers

  predicate Recommendable(v: Video) { v.isPublic }
  predicate PublicShort(v: Video) { v.isPublic && v.videoType == Short }
  predicate PublicLong(v: Video) { v.isPublic && v.videoType == Long }

  /** The search filter: public, and each given (truthy) parameter matched;
      `textMatch` stands for MongoDB's `$text` search on title and
      description. */
  predicate SearchHit(q: SearchQuery, textMatch: (string, Video) -> bool, v: Video) {
    && v.isPublic
    && (Truthy(q.q) ==> textMatch(q.q.value, v))
    && (Truthy(q.category) ==> CategoryName(v.category) == q.category.value)
    && (Truthy(q.videoType) ==> VideoTypeName(v.videoType) == q.videoType.value)
  }

  /** Every video a page shows passes the feed's filter. */
  lemma ShownPass(s: Store, keep: Video -> bool, videos: seq<VideoJson>)
    requires ShowsAll(s, keep, videos)
    ensures forall i :: 0 <= i < |videos| ==> keep(videos[i].video)
  {
  }

  /** `{ createdAt: -1 }`: newest first. */
  const NewestKeys: seq<SortKey> := [ByCreatedAt]

  ghost predicate NewestOnTop(videos: seq<VideoJson>) {
    forall i, j :: 0 <= i < j < |videos| ==> videos[i].video.createdAt >= videos[j].video.createdAt
  }

  lemma NewestFirst(videos: seq<VideoJson>)
    requires InKeyOrder(NewestKeys, videos)
    ensures NewestOnTop(videos)
  {
    assert NewestKeys[1..] == [];
  }

  const RecommendedDefaultLimit := 10
  const ShortDefaultLimit := 20
  const LongDefaultLimit := 10
  const SearchDefaultLimit := 10

  /** `GET /recommended`: public videos by views, then (inertly) likeCount,
      then recency, ten per page by default. */
  function GetRecommendedVideos(s: Store, q: FeedQuery): (r: Result<Page>)
    ensures Answers(s, Recommendable, RecommendedKeys, q.page, q.limit, RecommendedDefaultLimit, r)
    ensures r.Ok? ==> forall i :: 0 <= i < |r.value.videos| ==> r.value.videos[i].video.isPublic
  {
    Paginate(s, Recommendable, RecommendedKeys, q.page, q.limit, RecommendedDefaultLimit)
  }

  /** `GET /short`: public short videos, newest first, twenty per page by
      default. */
  function GetShortVideos(s: Store, q: FeedQuery): (r: Result<Page>)
    ensures Answers(s, PublicShort, NewestKeys, q.page, q.limit, ShortDefaultLimit, r)
    ensures r.Ok? ==> forall i :: 0 <= i < |r.value.videos| ==>
      r.value.videos[i].video.isPublic && r.value.videos[i].video.videoType == Short
  {
    var r := Paginate(s, PublicShort, NewestKeys, q.page, q.limit, ShortDefaultLimit);
    if r.Ok? then ShownPass(s, PublicShort, r.value.videos); r else r
  }

  /** The short feed lists the newest video first. */
  lemma ShortNewestFirst(s: Store, q: FeedQuery)
    ensures var r := GetShortVideos(s, q);
      r.Ok? ==> NewestOnTop(r.value.videos)
  {
    var r := GetShortVideos(s, q);
    if r.Ok? {
      NewestFirst(r.value.videos);
    }
  }

  /** `GET /long`: public long videos, newest first, ten per page by default. */
  function GetLongVideos(s: Store, q: FeedQuery): (r: Result<Page>)
    ensures Answers(s, PublicLong, NewestKeys, q.page, q.limit, LongDefaultLimit, r)
    ensures r.Ok? ==> forall i :: 0 <= i < |r.value.videos| ==>
      r.value.videos[i].video.isPublic && r.value.videos[i].video.videoType == Long
  {
    var r := Paginate(s, PublicLong, NewestKeys, q.page, q.limit, LongDefaultLimit);
    if r.Ok? then ShownPass(s, PublicLong, r.value.videos); r else r
  }

  /** The long feed lists the newest video first. */
  lemma LongNewestFirst(s: Store, q: FeedQuery)
    ensures var r := GetLongVideos(s, q);
      r.Ok? ==> NewestOnTop(r.value.videos)
  {
    var r := GetLongVideos(s, q);
    if r.Ok? {
      NewestFirst(r.value.videos);
    }
  }

  /** `GET /search`: public videos matching every given parameter, newest
      first, ten per page by default. */
  function SearchVideos(s: Store, q: SearchQuery, textMatch: (string, Video) -> bool): (r: Result<Page>)
    ensures Answers(s, v => SearchHit(q, textMatch, v), NewestKeys, q.page, q.limit, SearchDefaultLimit, r)
    ensures r.Ok? ==> forall i :: 0 <= i < |r.value.videos| ==>
      var v := r.value.videos[i].video;
      && v.isPublic
      && (Truthy(q.q) ==> textMatch(q.q.value, v))
      && (Truthy(q.category) ==> CategoryName(v.category) == q.category.value)
      && (Truthy(q.videoType) ==> VideoTypeName(v.videoType) == q.videoType.value)
  {
    Paginate(s, v => SearchHit(q, textMatch, v), NewestKeys, q.page, q.limit, SearchDefaultLimit)
  }

  /** Search results list the newest video first. */
  lemma SearchNewestFirst(s: Store, q: SearchQuery, textMatch: (string, Video) -> bool)
    ensures var r := SearchVideos(s, q, textMatch);
      r.Ok? ==> NewestOnTop(r.value.videos)
  {
    var r := SearchVideos(s, q, textMatch);
    if r.Ok? {
      NewestFirst(r.value.videos);
    }
  }

  /** Twenty-five public videos, `page=1&limit=10`: ten videos, three pages,
      twenty-five in all. */
  lemma FirstOfThreePages(s: Store)
    requires |MatchIds(s, Recommendable)| == 25
    ensures var r := GetRecommendedVideos(s, FeedQuery(Some("1"), Some("10")));
      && r.Ok? && |r.value.videos| == 10 && r.value.currentPage == 1
      && r.value.totalPages == 3 && r.value.totalVideos == 25
  {
    IntParamOfNumber("", 1, "", 1);
    IntParamOfNumber("", 10, "", RecommendedDefaultLimit);
    assert "" + IntString(1) + "" == "1";
    assert "" + IntString(10) + "" == "10";
  }
}
