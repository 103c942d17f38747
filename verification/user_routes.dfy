/** The user router, mounted at `/api/users`: seven routes, three open and
    four behind `protect`. Registration order matters: `GET /:id` comes
    before `GET /profile`. */
module UserRoutes {
  import opened Common
  import opened Router

  /** The user-controller functions the router binds. */
  datatype UserHandler =
    | RegisterUser
    | LoginUser
    | GetUserById
    | GetUserProfile
    | UpdateUserProfile
    | FollowUser
    | UnfollowUser

  /** The routes in registration order. */
  const Table: seq<Route<UserHandler>> := [
    Route(Post, [Lit("register")], Open, RegisterUser),
    Route(Post, [Lit("login")], Open, LoginUser),
    Route(Get, [Param("id")], Open, GetUserById),
    Route(Get, [Lit("profile")], Protect, GetUserProfile),
    Route(Put, [Lit("profile")], Protect, UpdateUserProfile),
    Route(Post, [Param("id"), Lit("follow")], Protect, FollowUser),
    Route(Delete, [Param("id"), Lit("follow")], Protect, UnfollowUser)
  ]

  /** The route a request to `/api/users/<path>` reaches, if any. */
  function Resolve(m: Method, path: seq<string>): (r: Option<Route<UserHandler>>)
    ensures r.Some? <==> exists i :: 0 <= i < |Table| && Handles(Table[i], m, path)
    ensures r.Some? ==> r.value in Table && Handles(r.value, m, path)
    ensures r.Some? && IsRead(m) ==> r.value.handler == GetUserById
  {
    match Dispatch(Table, m, path)
    case None => None
    case Some(i) => Some(Table[i])
  }

  /** Registering and logging in need no token. */
  lemma RegisterAndLoginOpen()
    ensures Resolve(Post, ["register"]) == Some(Table[0]) && Table[0].guard == Open
    ensures Resolve(Post, ["login"]) == Some(Table[1]) && Table[1].guard == Open
  {
    MatchesSingle(Lit("register"), "register");
    MatchesSingle(Lit("login"), "login");
    MatchesSingle(Lit("register"), "login");
    DispatchFirst(Table, Post, ["register"], 0);
    DispatchFirst(Table, Post, ["login"], 1);
  }

  /** Every one-segment path `/profile` would take is also an `:id`. */
  lemma ProfileIsAnId(path: seq<string>)
    ensures Matches(Table[3].pattern, path) ==> Matches(Table[2].pattern, path)
  {
    if Matches(Table[3].pattern, path) {
      assert SegmentMatches(Lit("profile"), path[0]);
    }
  }

  /** A GET is served by `getUserById`, with no guard, exactly when its path
      is one non-empty segment; `/profile` included. So `getUserProfile`,
      registered after `/:id`, is never reached. */
  lemma ProfileShadowed(path: seq<string>)
    ensures Resolve(Get, path).Some? <==> |path| == 1 && |path[0]| > 0
    ensures Resolve(Get, path).Some? ==> Resolve(Get, path) == Some(Table[2]) && Table[2].guard == Open
    ensures Resolve(Get, ["profile"]).value.handler == GetUserById
    ensures forall m, p :: Dispatch(Table, m, p) != Some(3)
  {
    forall p ensures Matches(Table[3].pattern, p) ==> Matches(Table[2].pattern, p) {
      ProfileIsAnId(p);
    }
    Shadowed(Table, 3, 2);
    if |path| == 1 && |path[0]| > 0 {
      assert Handles(Table[2], Get, path);
      DispatchFirst(Table, Get, path, 2);
    }
    MatchesSingle(Param("id"), "profile");
    DispatchFirst(Table, Get, ["profile"], 2);
  }

  /** A PUT is served exactly at `/profile`, by the protected
      `updateUserProfile`: no PUT `/:id` route stands before it. */
  lemma UpdateProfileReachable(path: seq<string>)
    ensures Resolve(Put, path).Some? <==> |path| == 1 && SameText("profile", path[0])
    ensures Resolve(Put, path).Some? ==> Resolve(Put, path) == Some(Table[4]) && Table[4].guard == Protect
  {
    if |path| == 1 {
      MatchesSingle(Lit("profile"), path[0]);
      assert [path[0]] == path;
      if SameText("profile", path[0]) {
        DispatchFirst(Table, Put, path, 4);
      }
    }
  }

  /** Follow and unfollow share the pattern `/:id/follow`, differ only in
      the method, and are both protected: a POST there follows, a DELETE
      unfollows. */
  lemma FollowPair(id: string)
    requires |id| > 0
    ensures Table[5].pattern == Table[6].pattern
    ensures Table[5].verb == Post && Table[6].verb == Delete
    ensures Table[5].guard == Protect && Table[6].guard == Protect
    ensures Resolve(Post, [id, "follow"]).Some? && Resolve(Post, [id, "follow"]).value.handler == FollowUser
    ensures Resolve(Delete, [id, "follow"]).Some? && Resolve(Delete, [id, "follow"]).value.handler == UnfollowUser
  {
    var path := [id, "follow"];
    assert path[0] == id && path[1] == "follow";
    assert Handles(Table[5], Post, path);
    assert Handles(Table[6], Delete, path);
    DispatchFirst(Table, Post, path, 5);
    DispatchFirst(Table, Delete, path, 6);
  }

  /** The table with the two `/profile` routes registered before `/:id`,
      as the protected `getUserProfile` evidently needs. */
  const CorrectedTable: seq<Route<UserHandler>> := [
    Route(Post, [Lit("register")], Open, RegisterUser),
    Route(Post, [Lit("login")], Open, LoginUser),
    Route(Get, [Lit("profile")], Protect, GetUserProfile),
    Route(Put, [Lit("profile")], Protect, UpdateUserProfile),
    Route(Get, [Param("id")], Open, GetUserById),
    Route(Post, [Param("id"), Lit("follow")], Protect, FollowUser),
    Route(Delete, [Param("id"), Lit("follow")], Protect, UnfollowUser)
  ]

  /** In the corrected table a GET `/profile`, in any letter case, reaches
      the protected `getUserProfile`, and every other one-segment GET still
      reaches `getUserById`. */
  lemma CorrectedProfileReachable(word: string)
    ensures SameText("profile", word) ==>
      Dispatch(CorrectedTable, Get, [word]) == Some(2) && CorrectedTable[2].handler == GetUserProfile
      && CorrectedTable[2].guard == Protect
    ensures |word| > 0 && !SameText("profile", word) ==>
      Dispatch(CorrectedTable, Get, [word]) == Some(4) && CorrectedTable[4].handler == GetUserById
  {
    MatchesSingle(Lit("profile"), word);
    MatchesSingle(Param("id"), word);
    if SameText("profile", word) {
      DispatchFirst(CorrectedTable, Get, [word], 2);
    } else if |word| > 0 {
      DispatchFirst(CorrectedTable, Get, [word], 4);
    }
  }

  /** Every handler is bound by exactly one route. */
  lemma EachHandlerBoundOnce(h: UserHandler)
    ensures exists i :: 0 <= i < |Table| && Table[i].handler == h
    ensures forall i, j :: 0 <= i < j < |Table| ==> Table[i].handler != Table[j].handler
  {
    match h
    case RegisterUser => assert Table[0].handler == h;
    case LoginUser => assert Table[1].handler == h;
    case GetUserById => assert Table[2].handler == h;
    case GetUserProfile => assert Table[3].handler == h;
    case UpdateUserProfile => assert Table[4].handler == h;
    case FollowUser => assert Table[5].handler == h;
    case UnfollowUser => assert Table[6].handler == h;
  }
}
