/** One request against `/api/videos`: first-match routing, the route's
    guard, then the controller function, and the HTTP status the exchange
    ends with. A path nothing matches falls through to the application's
    404 handler. */
module VideoServer {
  import opened Common
  import opened VideoModel
  import opened Storage
  import opened Router
  import VideoRoutes
  import Feeds
  import Lifecycle
  import Engagement

  /** The query string, each parameter absent or a string. */
  datatype Query = Query(
    q: Option<string>,
    category: Option<string>,
    videoType: Option<string>,
    page: Option<string>,
    limit: Option<string>)

  /** The JSON body; upload and update each read the fields they know. */
  datatype Body = Body(
    title: Option<string>,
    description: Option<string>,
    category: Option<string>,
    tags: Option<string>,
    videoType: Option<string>,
    videoUrl: Option<string>,
    thumbnailUrl: Option<string>,
    isPublic: Option<bool>)

  /** A request to `/api/videos/<path>`: `caller` is the user the token
      names, if any; `now` is the clock reading the timestamps take. */
  datatype Request = Request(
    verb: Method,
    path: seq<string>,
    caller: Option<UserId>,
    query: Query,
    body: Body,
    now: int)

  datatype Payload =
    | FeedPage(page: Feeds.Page)
    | VideoBody(video: VideoJson)
    | Liked(state: Engagement.LikeState)
    | Removed                 // { message: 'Video removed' }
    | Error(failure: Failure) // the controller's own error answers
    | NoToken                 // `protect` without a user
    | RouteNotFound           // the application's catch-all

  datatype Response = Response(status: int, payload: Payload)

  datatype Exchange = Exchange(store: Store, response: Response)

  function FeedQueryOf(q: Query): Feeds.FeedQuery {
    Feeds.FeedQuery(q.page, q.limit)
  }

  function SearchQueryOf(q: Query): Feeds.SearchQuery {
    Feeds.SearchQuery(q.q, q.category, q.videoType, q.page, q.limit)
  }

  function UploadBodyOf(b: Body): Lifecycle.UploadBody {
    Lifecycle.UploadBody(b.title, b.description, b.category, b.tags, b.videoType, b.videoUrl, b.thumbnailUrl)
  }

  function UpdateBodyOf(b: Body): Lifecycle.UpdateBody {
    Lifecycle.UpdateBody(b.title, b.description, b.category, b.tags, b.isPublic)
  }

  /** A feed answers 200 with its page or 500, and writes nothing. */
  function Feed(s: Store, r: Result<Feeds.Page>): Exchange {
    match r
    case Ok(p) => Exchange(s, Response(200, FeedPage(p)))
    case Fail(f) => Exchange(s, Response(StatusOf(f), Error(f)))
  }

  /** The four feed routes: each answers 200 with its page or 500, and
      writes nothing. */
  function FeedExchange(s: Store, h: VideoRoutes.VideoHandler, req: Request,
                        textMatch: (string, Video) -> bool): (x: Exchange)
    requires h.GetRecommendedVideos? || h.GetShortVideos? || h.GetLongVideos? || h.SearchVideos?
    ensures x.store == s && (x.response.status == 200 || x.response.status == 500)
  {
    match h
    case GetRecommendedVideos => Feed(s, Feeds.GetRecommendedVideos(s, FeedQueryOf(req.query)))
    case GetShortVideos => Feed(s, Feeds.GetShortVideos(s, FeedQueryOf(req.query)))
    case GetLongVideos => Feed(s, Feeds.GetLongVideos(s, FeedQueryOf(req.query)))
    case SearchVideos => Feed(s, Feeds.SearchVideos(s, SearchQueryOf(req.query), textMatch))
  }

  /** A handler's outcome as an exchange, `okStatus` on success. */
  function Reply<T>(o: Outcome<T>, okStatus: int, wrap: T -> Payload): Exchange {
    match o.response
    case Ok(v) => Exchange(o.store, Response(okStatus, wrap(v)))
    case Fail(f) => Exchange(o.store, Response(StatusOf(f), Error(f)))
  }

  /** The controller function a resolved route names, with `:id` and the
      user `protect` attached. */
  function Handle(s: Store, h: VideoRoutes.VideoHandler, id: string, caller: UserId, req: Request,
                  textMatch: (string, Video) -> bool): (x: Exchange)
    ensures x.response.status == 401 ==> h == VideoRoutes.UpdateVideo || h == VideoRoutes.DeleteVideo
    ensures x.response.status == 201 <==>
      h == VideoRoutes.UploadVideo && Acceptable(Lifecycle.UploadDraft(UploadBodyOf(req.body), caller))
    ensures h.GetRecommendedVideos? || h.GetShortVideos? || h.GetLongVideos? || h.SearchVideos? ==>
      x.store == s
    ensures h.GetVideoById? ==> x.store == Lifecycle.GetVideoById(s, id, req.now).store
    ensures h.UploadVideo? ==> x.store == Lifecycle.UploadVideo(s, caller, UploadBodyOf(req.body), req.now).store
    ensures h.UpdateVideo? ==> x.store == Lifecycle.UpdateVideo(s, caller, id, UpdateBodyOf(req.body), req.now).store
    ensures h.DeleteVideo? ==> x.store == Lifecycle.DeleteVideo(s, caller, id).store
    ensures h.ToggleVideoLike? ==> x.store == Engagement.ToggleVideoLike(s, caller, id, req.now).store
  {
    match h
    case GetRecommendedVideos | GetShortVideos | GetLongVideos | SearchVideos =>
      FeedExchange(s, h, req, textMatch)
    case GetVideoById =>
      Reply(Lifecycle.GetVideoById(s, id, req.now), 200, (j: VideoJson) => VideoBody(j))
    case UploadVideo =>
      Reply(Lifecycle.UploadVideo(s, caller, UploadBodyOf(req.body), req.now), 201, (j: VideoJson) => VideoBody(j))
    case UpdateVideo =>
      Reply(Lifecycle.UpdateVideo(s, caller, id, UpdateBodyOf(req.body), req.now), 200, (j: VideoJson) => VideoBody(j))
    case DeleteVideo =>
      Reply(Lifecycle.DeleteVideo(s, caller, id), 200, (_: ()) => Removed)
    case ToggleVideoLike =>
      Reply(Engagement.ToggleVideoLike(s, caller, id, req.now), 200, (l: Engagement.LikeState) => Liked(l))
  }

  /** One request, end to end. `textMatch` stands for MongoDB's text
      search. */
  function Serve(s: Store, req: Request, textMatch: (string, Video) -> bool): (x: Exchange)
    ensures VideoRoutes.Resolve(req.verb, req.path).None? ==>
      x == Exchange(s, Response(404, RouteNotFound))
    ensures var route := VideoRoutes.Resolve(req.verb, req.path);
      (route.Some? && route.value.guard == Protect && req.caller.None?) ==>
      x == Exchange(s, Response(401, NoToken))
    ensures x.response.status == 401 ==> !IsRead(req.verb)
    ensures x.response.status == 201 <==>
      && VideoRoutes.Resolve(req.verb, req.path).Some?
      && VideoRoutes.Resolve(req.verb, req.path).value.handler == VideoRoutes.UploadVideo
      && req.caller.Some?
      && Acceptable(Lifecycle.UploadDraft(UploadBodyOf(req.body), req.caller.value))
  {
    match VideoRoutes.Resolve(req.verb, req.path)
    case None => Exchange(s, Response(404, RouteNotFound))
    case Some(route) =>
      if route.guard == Protect && req.caller.None? then Exchange(s, Response(401, NoToken))
      else
        // Every route that reads `:id` declares it; `protect` put the user
        // on every route that reads it.
        var id := ParamValue(route.pattern, req.path, "id").GetOr("");
        VideoRoutes.TableShape();
        Handle(s, route.handler, id, req.caller.GetOr(0), req, textMatch)
  }

  /** Without a token, no write gets through: the request is refused (401),
      or no route takes it (404), and the database is untouched. */
  lemma AnonymousWritesChangeNothing(s: Store, req: Request, textMatch: (string, Video) -> bool)
    requires req.caller.None? && !IsRead(req.verb)
    ensures var x := Serve(s, req, textMatch);
      x.store == s && (x.response.status == 401 || x.response.status == 404)
  {
    if VideoRoutes.Resolve(req.verb, req.path).Some? {
      VideoRoutes.GuardsByMethod(req.verb, req.path);
    }
  }

  /** Every request keeps the database's invariants. */
  lemma ServeKeepsInvariant(s: Store, req: Request, textMatch: (string, Video) -> bool)
    requires Invariant(s)
    ensures Invariant(Serve(s, req, textMatch).store)
  {
    match VideoRoutes.Resolve(req.verb, req.path)
    case None =>
    case Some(route) =>
      if !(route.guard == Protect && req.caller.None?) {
        var h, seg, caller := Routed(s, req, textMatch);
        HandleKeepsInvariant(s, h, seg, caller, req, textMatch);
      }
  }

  /** Each controller function, once reached, keeps the database invariant. */
  lemma HandleKeepsInvariant(s: Store, h: VideoRoutes.VideoHandler, id: string, caller: UserId, req: Request,
                             textMatch: (string, Video) -> bool)
    requires Invariant(s)
    ensures Invariant(Handle(s, h, id, caller, req, textMatch).store)
  {
    match h
    case GetVideoById => Lifecycle.GetKeepsInvariant(s, id, req.now);
    case UploadVideo => Lifecycle.UploadKeepsInvariant(s, caller, UploadBodyOf(req.body), req.now);
    case UpdateVideo => Lifecycle.UpdateKeepsInvariant(s, caller, id, UpdateBodyOf(req.body), req.now);
    case DeleteVideo => Lifecycle.DeleteKeepsInvariant(s, caller, id);
    case ToggleVideoLike => Engagement.ToggleKeepsInvariant(s, caller, id, req.now);
    case _ =>
  }

  /** `v` as `w` differs from it at most in the counters others may move:
      a view, a like, and the timestamp those saves set. */
  predicate OnlyCountersMoved(v: Video, w: Video) {
    && w.(views := v.views, likes := v.likes, updatedAt := v.updatedAt) == v
    && v.views <= w.views <= v.views + 1
  }

  /** The request as the handler sees it, once routing and the guard have
      let it through. */
  lemma Routed(s: Store, req: Request, textMatch: (string, Video) -> bool)
    returns (h: VideoRoutes.VideoHandler, seg: string, caller: UserId)
    requires VideoRoutes.Resolve(req.verb, req.path).Some?
    requires VideoRoutes.Resolve(req.verb, req.path).value.guard == Protect ==> req.caller.Some?
    ensures h == VideoRoutes.Resolve(req.verb, req.path).value.handler
    ensures Serve(s, req, textMatch) == Handle(s, h, seg, caller, req, textMatch)
    ensures IsRead(req.verb) ==> h in {VideoRoutes.GetRecommendedVideos, VideoRoutes.GetShortVideos,
      VideoRoutes.GetLongVideos, VideoRoutes.SearchVideos, VideoRoutes.GetVideoById}
    ensures h in {VideoRoutes.UpdateVideo, VideoRoutes.DeleteVideo, VideoRoutes.UploadVideo} ==>
      req.caller == Some(caller)
  {
    var route := VideoRoutes.Resolve(req.verb, req.path).value;
    assert route in VideoRoutes.Table;
    VideoRoutes.TableShape();
    VideoRoutes.ReadHandlers();
    h := route.handler;
    seg := ParamValue(route.pattern, req.path, "id").GetOr("");
    caller := req.caller.GetOr(0);
    assert !(route.guard == Protect && req.caller.None?);
  }

  /** What each writing handler can do to a video `id` it was not asked
      about, or was asked about by someone else. */
  lemma GetEffect(s: Store, seg: string, now: int, id: VideoId)
    requires id in s.videos
    ensures var t := Lifecycle.GetVideoById(s, seg, now).store;
      id in t.videos && OnlyCountersMoved(s.videos[id], t.videos[id])
  {
  }

  lemma ToggleEffect(s: Store, caller: UserId, seg: string, now: int, id: VideoId)
    requires id in s.videos
    ensures var t := Engagement.ToggleVideoLike(s, caller, seg, now).store;
      id in t.videos && OnlyCountersMoved(s.videos[id], t.videos[id])
  {
  }

  lemma UploadEffect(s: Store, caller: UserId, body: Body, now: int, id: VideoId)
    requires Wellformed(s) && id in s.videos
    ensures var t := Lifecycle.UploadVideo(s, caller, UploadBodyOf(body), now).store;
      id in t.videos && t.videos[id] == s.videos[id]
  {
    assert s.nextId != id;
  }

  lemma UpdateEffect(s: Store, caller: UserId, seg: string, body: Body, now: int, id: VideoId)
    requires id in s.videos
    ensures var t := Lifecycle.UpdateVideo(s, caller, seg, UpdateBodyOf(body), now).store;
      && id in t.videos
      && (t.videos[id] == s.videos[id] || caller == s.videos[id].creator)
      && t.videos[id].creator == s.videos[id].creator
      && t.videos[id].videoType == s.videos[id].videoType
      && t.videos[id].createdAt == s.videos[id].createdAt
  {
  }

  lemma DeleteEffect(s: Store, caller: UserId, seg: string, id: VideoId)
    requires id in s.videos
    ensures var t := Lifecycle.DeleteVideo(s, caller, seg).store;
      && (id in t.videos ==> t.videos[id] == s.videos[id])
      && (id !in t.videos ==> caller == s.videos[id].creator)
  {
  }

  /** `OthersVideosSafe` for one handler. */
  lemma HandleOthersSafe(s: Store, h: VideoRoutes.VideoHandler, seg: string, caller: UserId, req: Request,
                         textMatch: (string, Video) -> bool, id: VideoId)
    requires Wellformed(s) && id in s.videos
    requires h in {VideoRoutes.UpdateVideo, VideoRoutes.DeleteVideo} ==> caller != s.videos[id].creator
    ensures var t := Handle(s, h, seg, caller, req, textMatch).store;
      id in t.videos && OnlyCountersMoved(s.videos[id], t.videos[id])
  {
    match h
    case GetVideoById => GetEffect(s, seg, req.now, id);
    case ToggleVideoLike => ToggleEffect(s, caller, seg, req.now, id);
    case UploadVideo => UploadEffect(s, caller, req.body, req.now, id);
    case UpdateVideo => UpdateEffect(s, caller, seg, req.body, req.now, id);
    case DeleteVideo => DeleteEffect(s, caller, seg, id);
    case GetRecommendedVideos =>
    case GetShortVideos =>
    case GetLongVideos =>
    case SearchVideos =>
  }

  /** Nobody but its creator can delete or edit a video: whatever anyone
      else sends, it stays, changed at most by one view or one like. */
  lemma OthersVideosSafe(s: Store, req: Request, textMatch: (string, Video) -> bool, id: VideoId)
    requires Wellformed(s) && id in s.videos && req.caller != Some(s.videos[id].creator)
    ensures var t := Serve(s, req, textMatch).store;
      id in t.videos && OnlyCountersMoved(s.videos[id], t.videos[id])
  {
    var route := VideoRoutes.Resolve(req.verb, req.path);
    if route.Some? && !(route.value.guard == Protect && req.caller.None?) {
      var h, seg, caller := Routed(s, req, textMatch);
      HandleOthersSafe(s, h, seg, caller, req, textMatch, id);
    }
  }

  /** `ImmutableFields` for one handler. */
  lemma HandleImmutable(s: Store, h: VideoRoutes.VideoHandler, seg: string, caller: UserId, req: Request,
                        textMatch: (string, Video) -> bool, id: VideoId)
    requires Wellformed(s) && id in s.videos
    ensures var t := Handle(s, h, seg, caller, req, textMatch).store;
      id in t.videos ==>
        && t.videos[id].creator == s.videos[id].creator
        && t.videos[id].videoType == s.videos[id].videoType
        && t.videos[id].createdAt == s.videos[id].createdAt
  {
    match h
    case GetVideoById => GetEffect(s, seg, req.now, id);
    case ToggleVideoLike => ToggleEffect(s, caller, seg, req.now, id);
    case UploadVideo => UploadEffect(s, caller, req.body, req.now, id);
    case UpdateVideo => UpdateEffect(s, caller, seg, req.body, req.now, id);
    case DeleteVideo => DeleteEffect(s, caller, seg, id);
    case GetRecommendedVideos =>
    case GetShortVideos =>
    case GetLongVideos =>
    case SearchVideos =>
  }

  /** A video's creator, type and creation time never change while it
      exists. */
  lemma ImmutableFields(s: Store, req: Request, textMatch: (string, Video) -> bool, id: VideoId)
    requires Wellformed(s) && id in s.videos
    ensures var t := Serve(s, req, textMatch).store;
      id in t.videos ==>
        && t.videos[id].creator == s.videos[id].creator
        && t.videos[id].videoType == s.videos[id].videoType
        && t.videos[id].createdAt == s.videos[id].createdAt
  {
    var route := VideoRoutes.Resolve(req.verb, req.path);
    if route.Some? && !(route.value.guard == Protect && req.caller.None?) {
      var h, seg, caller := Routed(s, req, textMatch);
      HandleImmutable(s, h, seg, caller, req, textMatch, id);
    }
  }

  /** `ReadsOnlyCountViews` for the handlers a GET reaches. */
  lemma HandleReads(s: Store, h: VideoRoutes.VideoHandler, seg: string, caller: UserId, req: Request,
                    textMatch: (string, Video) -> bool)
    requires h in {VideoRoutes.GetRecommendedVideos, VideoRoutes.GetShortVideos,
      VideoRoutes.GetLongVideos, VideoRoutes.SearchVideos, VideoRoutes.GetVideoById}
    ensures var t := Handle(s, h, seg, caller, req, textMatch).store;
      && t.videos.Keys == s.videos.Keys && t.users == s.users && t.nextId == s.nextId
      && forall id :: id in s.videos ==>
           t.videos[id] == s.videos[id]
           || t.videos[id] == s.videos[id].(views := s.videos[id].views + 1, updatedAt := t.videos[id].updatedAt)
  {
    match h
    case GetVideoById =>
    case GetRecommendedVideos =>
    case GetShortVideos =>
    case GetLongVideos =>
    case SearchVideos =>
  }

  /** A read writes nothing but the one video it shows: no video appears
      or goes, no user changes, and each video is as it was or has one more
      view. */
  lemma ReadsOnlyCountViews(s: Store, req: Request, textMatch: (string, Video) -> bool)
    requires IsRead(req.verb)
    ensures var t := Serve(s, req, textMatch).store;
      && t.videos.Keys == s.videos.Keys && t.users == s.users && t.nextId == s.nextId
      && forall id :: id in s.videos ==>
           t.videos[id] == s.videos[id]
           || t.videos[id] == s.videos[id].(views := s.videos[id].views + 1, updatedAt := t.videos[id].updatedAt)
  {
    var route := VideoRoutes.Resolve(req.verb, req.path);
    if route.Some? {
      VideoRoutes.GuardsByMethod(req.verb, req.path);
      var h, seg, caller := Routed(s, req, textMatch);
      HandleReads(s, h, seg, caller, req, textMatch);
    }
  }
}
