/** The video router, mounted at `/api/videos`: nine routes, the reads
    behind `optionalAuth` and the writes behind `protect`. */
module VideoRoutes {
  import opened Common
  import opened Router

  /** The controller functions the router binds. */
  datatype VideoHandler =
    | GetRecommendedVideos
    | GetShortVideos
    | GetLongVideos
    | SearchVideos
    | GetVideoById
    | UploadVideo
    | UpdateVideo
    | DeleteVideo
    | ToggleVideoLike

  /** The routes in registration order. */
  const Table: seq<Route<VideoHandler>> := [
    Route(Get, [Lit("recommended")], OptionalAuth, GetRecommendedVideos),
    Route(Get, [Lit("short")], OptionalAuth, GetShortVideos),
    Route(Get, [Lit("long")], OptionalAuth, GetLongVideos),
    Route(Get, [Lit("search")], OptionalAuth, SearchVideos),
    Route(Get, [Param("id")], OptionalAuth, GetVideoById),
    Route(Post, [], Protect, UploadVideo),
    Route(Put, [Param("id")], Protect, UpdateVideo),
    Route(Delete, [Param("id")], Protect, DeleteVideo),
    Route(Post, [Param("id"), Lit("like")], Protect, ToggleVideoLike)
  ]

  /** The route a request to `/api/videos/<path>` reaches, if any. */
  function Resolve(m: Method, path: seq<string>): (r: Option<Route<VideoHandler>>)
    ensures r.Some? <==> exists i :: 0 <= i < |Table| && Handles(Table[i], m, path)
    ensures r.Some? ==> r.value in Table && Handles(r.value, m, path)
    ensures r.Some? ==> (r.value.guard == OptionalAuth <==> IsRead(m))
  {
    match Dispatch(Table, m, path)
    case None => None
    case Some(i) => Some(Table[i])
  }

  /** Every read is behind `optionalAuth` and every write behind `protect`. */
  lemma GuardsByMethod(m: Method, path: seq<string>)
    requires Resolve(m, path).Some?
    ensures IsRead(m) ==> Resolve(m, path).value.guard == OptionalAuth
    ensures !IsRead(m) ==> Resolve(m, path).value.guard == Protect
  {
  }

  /** The reads are exactly the `optionalAuth` routes, and the handlers
      that can refuse a caller, and upload, sit behind `protect`. */
  lemma TableShape()
    ensures forall r :: r in Table ==> (r.verb == Get <==> r.guard == OptionalAuth)
    ensures forall r :: r in Table ==> r.verb != Head
    ensures forall r :: r in Table ==> (r.guard == OptionalAuth || r.guard == Protect)
    ensures forall r :: r in Table && r.handler in {UpdateVideo, DeleteVideo, UploadVideo} ==>
      r.verb != Get && r.guard == Protect
  {
  }

  /** The GET routes are the four feeds and `getVideoById`. */
  lemma ReadHandlers()
    ensures forall r :: r in Table && r.verb == Get ==>
      r.handler in {GetRecommendedVideos, GetShortVideos, GetLongVideos, SearchVideos, GetVideoById}
  {
  }

  /** A HEAD request reaches the route the GET to the same path reaches, so
      `HEAD /:id` runs `getVideoById`. */
  lemma HeadIsGet(path: seq<string>)
    ensures Resolve(Head, path) == Resolve(Get, path)
  {
    HeadFollowsGet(Table, path, 0);
  }

  /** A one-segment GET naming one of the four feeds, in any letter case,
      reaches that feed and never `getVideoById`. */
  lemma FeedsBeforeId(word: string)
    ensures SameText("recommended", word) ==> Resolve(Get, [word]).value.handler == GetRecommendedVideos
    ensures SameText("short", word) ==> Resolve(Get, [word]).value.handler == GetShortVideos
    ensures SameText("long", word) ==> Resolve(Get, [word]).value.handler == GetLongVideos
    ensures SameText("search", word) ==> Resolve(Get, [word]).value.handler == SearchVideos
  {
    var path := [word];
    MatchesSingle(Lit("recommended"), word);
    MatchesSingle(Lit("short"), word);
    MatchesSingle(Lit("long"), word);
    MatchesSingle(Lit("search"), word);
    if SameText("recommended", word) {
      DispatchFirst(Table, Get, path, 0);
    } else if SameText("short", word) {
      DispatchFirst(Table, Get, path, 1);
    } else if SameText("long", word) {
      DispatchFirst(Table, Get, path, 2);
    } else if SameText("search", word) {
      DispatchFirst(Table, Get, path, 3);
    }
  }

  /** `getVideoById` sees exactly the one-segment GETs that name none of
      the feeds. */
  lemma IdRouteCatchesTheRest(path: seq<string>)
    ensures (Resolve(Get, path).Some? && Resolve(Get, path).value.handler == GetVideoById) <==>
      && |path| == 1 && |path[0]| > 0
      && !SameText("recommended", path[0]) && !SameText("short", path[0])
      && !SameText("long", path[0]) && !SameText("search", path[0])
  {
    if |path| == 1 && |path[0]| > 0 {
      assert Handles(Table[4], Get, path);
    }
  }

  /** Each of the nine handlers is bound by exactly one route. */
  lemma EachHandlerBoundOnce(h: VideoHandler)
    ensures exists i :: 0 <= i < |Table| && Table[i].handler == h
    ensures forall i, j :: 0 <= i < j < |Table| ==> Table[i].handler != Table[j].handler
  {
    match h
    case GetRecommendedVideos => assert Table[0].handler == h;
    case GetShortVideos => assert Table[1].handler == h;
    case GetLongVideos => assert Table[2].handler == h;
    case SearchVideos => assert Table[3].handler == h;
    case GetVideoById => assert Table[4].handler == h;
    case UploadVideo => assert Table[5].handler == h;
    case UpdateVideo => assert Table[6].handler == h;
    case DeleteVideo => assert Table[7].handler == h;
    case ToggleVideoLike => assert Table[8].handler == h;
  }

  /** The request `m /api/videos/<path>` is served by `h`. */
  predicate Serves(m: Method, path: seq<string>, h: VideoHandler) {
    Resolve(m, path).Some? && Resolve(m, path).value.handler == h
  }

  /** A request that reaches each handler. */
  function Witness(h: VideoHandler): (Method, seq<string>) {
    match h
    case GetRecommendedVideos => (Get, ["recommended"])
    case GetShortVideos => (Get, ["short"])
    case GetLongVideos => (Get, ["long"])
    case SearchVideos => (Get, ["search"])
    case GetVideoById => (Get, ["1"])
    case UploadVideo => (Post, [])
    case UpdateVideo => (Put, ["1"])
    case DeleteVideo => (Delete, ["1"])
    case ToggleVideoLike => (Post, ["1", "like"])
  }

  /** `PUT` and `DELETE /1` reach the update and delete routes. */
  lemma ReachWrite(m: Method, i: nat)
    requires (m == Put && i == 6) || (m == Delete && i == 7)
    ensures Resolve(m, ["1"]) == Some(Table[i])
  {
    MatchesSingle(Param("id"), "1");
    MatchesSingle(Lit("recommended"), "1");
    DispatchFirst(Table, m, ["1"], i);
  }

  /** `POST /1/like` reaches the like route, past the upload route. */
  lemma ReachLike()
    ensures Resolve(Post, ["1", "like"]) == Some(Table[8])
  {
    var path := ["1", "like"];
    assert path[0] == "1" && path[1] == "like";
    assert Handles(Table[8], Post, path);
    DispatchFirst(Table, Post, path, 8);
  }

  /** No route is shadowed: every handler serves some request. */
  lemma EveryHandlerReachable(h: VideoHandler)
    ensures Serves(Witness(h).0, Witness(h).1, h)
  {
    match h
    case GetRecommendedVideos => FeedsBeforeId("recommended");
    case GetShortVideos => FeedsBeforeId("short");
    case GetLongVideos => FeedsBeforeId("long");
    case SearchVideos => FeedsBeforeId("search");
    case GetVideoById => IdRouteCatchesTheRest(["1"]);
    case UploadVideo => DispatchFirst(Table, Post, [], 5);
    case UpdateVideo => ReachWrite(Put, 6);
    case DeleteVideo => ReachWrite(Delete, 7);
    case ToggleVideoLike => ReachLike();
  }
}
