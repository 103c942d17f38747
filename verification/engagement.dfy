/** `toggleVideoLike`: a like on a video, recorded on both sides, the
    video's `likes` and the user's `likes`. */
module Engagement {
  import opened Common
  import opened Js
  import opened VideoModel
  import opened Storage

  /** The JSON body of a toggle: the message, the new count, and whether
      the caller now likes the video. */
  datatype LikeState = LikeState(message: string, likeCount: nat, isLiked: bool)

  /** `POST /:id/like`. The user's `likes` is written first and the video's
      save second, so a save that fails leaves the user's side changed. */
  function ToggleVideoLike(s: Store, caller: UserId, segment: string, now: int): (r: Outcome<LikeState>)
    ensures FindVideo(s, segment).Fail? ==> r == Outcome(s, Fail(FindVideo(s, segment).failure))
    ensures r.response.Fail? ==> r.response.failure != NotAuthorized && r.store.videos == s.videos
    ensures r.response.Ok? <==>
      FindVideo(s, segment).Ok? && Valid(s.videos[FindVideo(s, segment).value])
    ensures FindVideo(s, segment).Ok? ==>
      var id := FindVideo(s, segment).value;
      var v := s.videos[id];
      var wasLiked := caller in v.likes;
      && r.store.nextId == s.nextId
      && r.store.users.Keys == s.users.Keys
      && (forall u :: u in s.users && u != caller ==> r.store.users[u] == s.users[u])
      && (caller in s.users ==>
            && r.store.users[caller].videos == s.users[caller].videos
            && (id in r.store.users[caller].likes <==> !wasLiked)
            && (forall x :: x != id ==> (x in r.store.users[caller].likes <==> x in s.users[caller].likes)))
      && (r.response.Ok? ==>
            id in r.store.videos &&
            var w := r.store.videos[id];
            && r.store.videos == s.videos[id := w]
            && (caller in w.likes <==> !wasLiked)
            && (forall u :: u != caller ==> (u in w.likes <==> u in v.likes))
            && w.(likes := v.likes, updatedAt := v.updatedAt) == v
            && w.updatedAt == now
            && r.response.value.isLiked == !wasLiked
            && r.response.value.likeCount == |w.likes|
            && r.response.value.likeCount == (if wasLiked then |v.likes| - multiset(v.likes)[caller] else |v.likes| + 1)
            && r.response.value.message == if wasLiked then "Video unliked" else "Video liked")
  {
    match FindVideo(s, segment)
    case Fail(f) => Outcome(s, Fail(f))
    case Ok(id) =>
      var v := s.videos[id];
      var wasLiked := caller in v.likes;
      var likes := if wasLiked then Pull(v.likes, caller) else v.likes + [caller];
      var users := if wasLiked then PullLike(s.users, caller, id) else PushLike(s.users, caller, id);
      var afterUser := s.(users := users);
      var w := Stamp(v, v.(likes := likes), now);
      match SaveVideo(afterUser, id, w)
      case None => Outcome(afterUser, Fail(ServerError))
      case Some(saved) =>
        var message := if wasLiked then "Video unliked" else "Video liked";
        Outcome(saved, Ok(LikeState(message, |likes|, !wasLiked)))
  }

  /** The likes array after the caller's toggle. */
  function Flip(likes: seq<UserId>, caller: UserId): seq<UserId> {
    if caller in likes then Pull(likes, caller) else likes + [caller]
  }

  /** The database after a successful toggle of video `id`. */
  function Toggled(s: Store, caller: UserId, id: VideoId, now: int): Store
    requires id in s.videos
  {
    var v := s.videos[id];
    var users := if caller in v.likes then PullLike(s.users, caller, id) else PushLike(s.users, caller, id);
    Store(s.videos[id := v.(likes := Flip(v.likes, caller), updatedAt := now)], users, s.nextId)
  }

  /** A toggle always changes the likes array. */
  lemma FlipChanges(likes: seq<UserId>, caller: UserId)
    ensures Flip(likes, caller) != likes
    ensures caller in Flip(likes, caller) <==> caller !in likes
  {
    if caller !in likes {
      assert |Flip(likes, caller)| == |likes| + 1;
    }
  }

  /** A toggle of a found, valid video leaves the `Toggled` database. */
  lemma ToggleIsToggled(s: Store, caller: UserId, segment: string, now: int)
    requires FindVideo(s, segment).Ok? && Valid(s.videos[FindVideo(s, segment).value])
    ensures var id := FindVideo(s, segment).value;
      var r := ToggleVideoLike(s, caller, segment, now);
      r.response.Ok? && r.store == Toggled(s, caller, id, now)
  {
    var id := FindVideo(s, segment).value;
    FlipChanges(s.videos[id].likes, caller);
  }

  lemma ToggledWellformed(s: Store, caller: UserId, id: VideoId, now: int)
    requires Wellformed(s) && id in s.videos
    ensures Wellformed(Toggled(s, caller, id, now))
  {
    var t := Toggled(s, caller, id, now);
    forall u, x | u in t.users && x in t.users[u].likes ensures x < t.nextId {
      if x != id {
        assert x in s.users[u].likes;
      }
    }
    forall u, x | u in t.users && x in t.users[u].videos ensures x < t.nextId {
      assert x in s.users[u].videos;
    }
  }

  lemma ToggledLikesConsistent(s: Store, caller: UserId, id: VideoId, now: int)
    requires LikesConsistent(s) && id in s.videos
    ensures LikesConsistent(Toggled(s, caller, id, now))
  {
    var t := Toggled(s, caller, id, now);
    FlipChanges(s.videos[id].likes, caller);
    forall vid, u | vid in t.videos && u in t.users
      ensures u in t.videos[vid].likes <==> vid in t.users[u].likes
    {
      if vid != id {
        assert t.videos[vid] == s.videos[vid];
      }
    }
  }

  lemma ToggledOwnersConsistent(s: Store, caller: UserId, id: VideoId, now: int)
    requires OwnersConsistent(s) && id in s.videos
    ensures OwnersConsistent(Toggled(s, caller, id, now))
  {
    var t := Toggled(s, caller, id, now);
    forall vid, u | vid in t.videos && u in t.users
      ensures vid in t.users[u].videos <==> t.videos[vid].creator == u
    {
      assert vid in s.videos;
    }
  }

  lemma ToggledLikesUnique(s: Store, caller: UserId, id: VideoId, now: int)
    requires LikesConsistent(s) && LikesUnique(s) && id in s.videos
    ensures LikesUnique(Toggled(s, caller, id, now))
  {
    var t := Toggled(s, caller, id, now);
    var v := s.videos[id];
    PullPushNoRepeats(v.likes, caller);
    forall vid | vid in t.videos ensures NoRepeats(t.videos[vid].likes) {
      if vid != id {
        assert t.videos[vid] == s.videos[vid];
      }
    }
    forall u | u in t.users ensures NoRepeats(t.users[u].likes) {
      if u == caller {
        PullPushNoRepeats(s.users[u].likes, id);
        assert caller !in v.likes ==> id !in s.users[u].likes;
      } else {
        assert t.users[u] == s.users[u];
      }
    }
  }

  /** A toggle keeps every invariant: the like is added or removed on both
      sides at once. */
  lemma ToggleKeepsInvariant(s: Store, caller: UserId, segment: string, now: int)
    requires Invariant(s)
    ensures Invariant(ToggleVideoLike(s, caller, segment, now).store)
  {
    if FindVideo(s, segment).Ok? {
      var id := FindVideo(s, segment).value;
      ToggleIsToggled(s, caller, segment, now);
      ToggledWellformed(s, caller, id, now);
      ToggledLikesConsistent(s, caller, id, now);
      ToggledOwnersConsistent(s, caller, id, now);
      ToggledLikesUnique(s, caller, id, now);
    }
  }

  /** Toggling a stored, valid video by its own id. */
  lemma ToggleOfStored(s: Store, caller: UserId, id: VideoId, now: int)
    requires id in s.videos && Valid(s.videos[id])
    ensures var r := ToggleVideoLike(s, caller, NatString(id), now);
      && r.store == Toggled(s, caller, id, now)
      && r.response.Ok?
      && r.response.value.likeCount == |Flip(s.videos[id].likes, caller)|
      && r.response.value.isLiked == (caller !in s.videos[id].likes)
  {
    FindStored(s, id);
    ToggleIsToggled(s, caller, NatString(id), now);
  }

  lemma Overwrite(m: map<VideoId, Video>, k: VideoId, a: Video, b: Video)
    ensures m[k := a][k := b] == m[k := b]
  {
  }

  /** Liking and then unliking a video the caller did not like gives back
      the database as it was, except for the video's `updatedAt`. */
  lemma LikeThenUnlike(s: Store, caller: UserId, id: VideoId, now1: int, now2: int)
    requires Invariant(s) && id in s.videos && caller !in s.videos[id].likes
    ensures var r1 := ToggleVideoLike(s, caller, NatString(id), now1);
      && r1.response.Ok? && r1.response.value.isLiked
      && var r2 := ToggleVideoLike(r1.store, caller, NatString(id), now2);
      && r2.response.Ok? && !r2.response.value.isLiked
      && r2.response.value.likeCount == |s.videos[id].likes|
      && r2.store == s.(videos := s.videos[id := s.videos[id].(updatedAt := now2)])
  {
    var v := s.videos[id];
    ToggleOfStored(s, caller, id, now1);
    var t1 := Toggled(s, caller, id, now1);
    assert t1.videos[id] == v.(likes := v.likes + [caller], updatedAt := now1);
    ToggleOfStored(t1, caller, id, now2);
    if caller in s.users {
      assert id !in s.users[caller].likes;
    }
    ToggleTwiceStore(s, caller, id, now1, now2);
    PullPushed(v.likes, caller);
  }

  /** The store half of `LikeThenUnlike`. */
  lemma ToggleTwiceStore(s: Store, caller: UserId, id: VideoId, now1: int, now2: int)
    requires id in s.videos && caller !in s.videos[id].likes
    requires caller in s.users ==> id !in s.users[caller].likes
    ensures Toggled(Toggled(s, caller, id, now1), caller, id, now2)
      == s.(videos := s.videos[id := s.videos[id].(updatedAt := now2)])
  {
    var v := s.videos[id];
    var t1 := Toggled(s, caller, id, now1);
    var t2 := Toggled(t1, caller, id, now2);
    PullPushed(v.likes, caller);
    assert t2.videos[id] == v.(updatedAt := now2);
    assert t2.videos == t1.videos[id := v.(updatedAt := now2)];
    Overwrite(s.videos, id, t1.videos[id], v.(updatedAt := now2));
    assert caller in t1.videos[id].likes;
    assert t2.users == PullLike(PushLike(s.users, caller, id), caller, id);
    PullLikePushed(s.users, caller, id);
  }

  /** Two toggles in a row leave both likes arrays holding what they held
      before (the order may change), and answer the original count. */
  lemma ToggleTwiceRestoresLike(s: Store, caller: UserId, id: VideoId, now1: int, now2: int)
    requires Invariant(s) && id in s.videos && caller in s.users
    ensures var r1 := ToggleVideoLike(s, caller, NatString(id), now1);
      var r2 := ToggleVideoLike(r1.store, caller, NatString(id), now2);
      && r2.response.Ok?
      && multiset(r2.store.videos[id].likes) == multiset(s.videos[id].likes)
      && multiset(r2.store.users[caller].likes) == multiset(s.users[caller].likes)
      && r2.response.value.likeCount == |s.videos[id].likes|
      && r2.response.value.isLiked == (caller in s.videos[id].likes)
  {
    var v := s.videos[id];
    if caller !in v.likes {
      LikeThenUnlike(s, caller, id, now1, now2);
    } else {
      ToggleOfStored(s, caller, id, now1);
      var t1 := Toggled(s, caller, id, now1);
      ToggleKeepsInvariant(s, caller, NatString(id), now1);
      ToggleOfStored(t1, caller, id, now2);
      var t2 := Toggled(t1, caller, id, now2);
      RelikeRestores(v.likes, caller);
      assert t2.videos[id].likes == Pull(v.likes, caller) + [caller];
      var mine := s.users[caller].likes;
      assert id in mine;
      RelikeRestores(mine, id);
      assert t2.users[caller].likes == Pull(mine, id) + [id];
    }
  }

  /** Pulling an id held once and pushing it back gives the same multiset,
      so the same length. */
  lemma RelikeRestores(likes: seq<nat>, x: nat)
    requires NoRepeats(likes) && x in likes
    ensures multiset(Pull(likes, x) + [x]) == multiset(likes)
    ensures |Pull(likes, x) + [x]| == |likes|
  {
    assert multiset(likes)[x] == 1;
    assert multiset(Pull(likes, x) + [x]) == multiset(Pull(likes, x)) + multiset{x};
  }

  /** A video nobody liked: the first toggle answers a count of 1 and
      "liked", the second a count of 0 and "unliked". */
  lemma FirstLikeThenUnlike(s: Store, caller: UserId, id: VideoId, now1: int, now2: int)
    requires Invariant(s) && id in s.videos && s.videos[id].likes == []
    ensures var r1 := ToggleVideoLike(s, caller, NatString(id), now1);
      && r1.response == Ok(LikeState("Video liked", 1, true))
      && ToggleVideoLike(r1.store, caller, NatString(id), now2).response
         == Ok(LikeState("Video unliked", 0, false))
  {
    LikeThenUnlike(s, caller, id, now1, now2);
  }
}
