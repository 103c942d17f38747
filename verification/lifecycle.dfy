/** The handlers that read or change one video: `getVideoById`,
    `uploadVideo`, `updateVideo` and `deleteVideo`. */
module Lifecycle {
  import opened Common
  import opened Js
  import opened VideoModel
  import opened Storage

  // ---------------------------------------------------------------- tags

  /** `tags ? tags.split(',').map(tag => tag.trim()) : fallback`: a
      non-empty string is cut at every comma and each piece trimmed; empty
      pieces stay. */
  function TagsOr(tags: Option<string>, fallback: seq<string>): (r: seq<string>)
    ensures !Truthy(tags) ==> r == fallback
    ensures Truthy(tags) ==> |r| == |Split(tags.value, ',')| >= 1
    ensures Truthy(tags) ==> forall k :: 0 <= k < |r| ==> IsTrimOf(r[k], Split(tags.value, ',')[k])
  {
    if Truthy(tags) then TrimAll(Split(tags.value, ',')) else fallback
  }

  /** No tag starts or ends with white space. */
  predicate Trimmed(tags: seq<string>) {
    forall k :: 0 <= k < |tags| ==>
      |tags[k]| > 0 ==> !IsSpace(tags[k][0]) && !IsSpace(tags[k][|tags[k]| - 1])
  }

  /** Tags a client joins with commas come back unchanged, as long as none
      holds a comma or white space at an end (and the joined text is not
      empty, which would be falsy). */
  lemma TagsRoundTrip(tags: seq<string>, fallback: seq<string>)
    requires |tags| >= 1 && |Join(tags, ',')| > 0
    requires forall k :: 0 <= k < |tags| ==> ',' !in tags[k]
    requires Trimmed(tags)
    ensures TagsOr(Some(Join(tags, ',')), fallback) == tags
  {
    SplitJoin(tags, ',');
    forall k | 0 <= k < |tags| ensures Trim(tags[k]) == tags[k] {
      TrimOfTrimmed(tags[k]);
    }
  }

  /** Trimming tags that were already trimmed changes nothing: the schema's
      `trim` setter after the handler's own `trim()` is a no-op. */
  lemma TrimAllTwice(ss: seq<string>)
    ensures TrimAll(TrimAll(ss)) == TrimAll(ss)
  {
    forall k | 0 <= k < |ss| ensures Trim(Trim(ss[k])) == Trim(ss[k]) {
      TrimIdempotent(ss[k]);
    }
  }

  /** The stored tags a request produces are already trimmed. */
  lemma TagsStable(tags: Option<string>)
    ensures TrimAll(TagsOr(tags, [])) == TagsOr(tags, [])
  {
    if Truthy(tags) {
      TrimAllTwice(Split(tags.value, ','));
    }
  }

  // ---------------------------------------------------------------- get

  /** `GET /:id`: find the video, count the view, save, return it. */
  function GetVideoById(s: Store, segment: string, now: int): (r: Outcome<VideoJson>)
    ensures r.response.Fail? ==> r.store == s && r.response.failure != NotAuthorized
    ensures FindVideo(s, segment).Fail? ==> r.response == Fail(FindVideo(s, segment).failure)
    ensures r.response.Ok? <==>
      FindVideo(s, segment).Ok? && Valid(s.videos[FindVideo(s, segment).value])
    ensures r.response.Ok? ==>
      var id := FindVideo(s, segment).value;
      var v := s.videos[id];
      var w := r.response.value.video;
      && w == v.(views := v.views + 1, updatedAt := now)
      && r.response.value == ToJson(id, w)
      && r.store == s.(videos := s.videos[id := w])
  {
    match FindVideo(s, segment)
    case Fail(f) => Outcome(s, Fail(f))
    case Ok(id) =>
      var v := s.videos[id];
      var w := Stamp(v, v.(views := v.views + 1), now);
      match SaveVideo(s, id, w)
      case None => Outcome(s, Fail(ServerError))
      case Some(saved) => Outcome(saved, Ok(ToJson(id, w)))
  }

  /** Viewing a stored video never fails, and each view adds exactly one. */
  lemma ViewCounts(s: Store, id: VideoId, now1: int, now2: int)
    requires Wellformed(s) && id in s.videos
    ensures var r1 := GetVideoById(s, NatString(id), now1);
      && r1.response.Ok?
      && var r2 := GetVideoById(r1.store, NatString(id), now2);
      && r2.response.Ok?
      && r2.response.value.video.views == s.videos[id].views + 2
      && r2.response.value.video.(views := s.videos[id].views, updatedAt := s.videos[id].updatedAt)
         == s.videos[id]
  {
    FindStored(s, id);
    var r1 := GetVideoById(s, NatString(id), now1);
    FindStored(r1.store, id);
  }

  lemma GetKeepsInvariant(s: Store, segment: string, now: int)
    requires Invariant(s)
    ensures Invariant(GetVideoById(s, segment, now).store)
  {
    var r := GetVideoById(s, segment, now);
    if r.response.Ok? {
      var id := FindVideo(s, segment).value;
      ResaveKeepsInvariant(s, id, r.response.value.video);
    }
  }

  // ---------------------------------------------------------------- upload

  /** The JSON body of an upload; each field absent or a string. */
  datatype UploadBody = UploadBody(
    title: Option<string>,
    description: Option<string>,
    category: Option<string>,
    tags: Option<string>,
    videoType: Option<string>,
    videoUrl: Option<string>,
    thumbnailUrl: Option<string>)

  const PlaceholderVideoUrl := "https://example.com/video.mp4"
  const PlaceholderThumbnailUrl := "https://example.com/thumbnail.jpg"

  /** The object `uploadVideo` hands to `Video.create`. */
  function UploadDraft(body: UploadBody, caller: UserId): VideoDraft {
    VideoDraft(
      title := body.title,
      description := body.description,
      videoUrl := Some(Or(body.videoUrl, PlaceholderVideoUrl)),
      thumbnailUrl := Some(Or(body.thumbnailUrl, PlaceholderThumbnailUrl)),
      category := body.category,
      tags := TagsOr(body.tags, []),
      videoType := Some(Or(body.videoType, "short")),
      creator := Some(caller))
  }

  /** `POST /`: create the video under the next id, push that id onto the
      caller's `videos`, answer 201 with the new document. A draft the
      schema refuses is a 500 that changes nothing. */
  function UploadVideo(s: Store, caller: UserId, body: UploadBody, now: int): (r: Outcome<VideoJson>)
    ensures r.response.Ok? <==> Acceptable(UploadDraft(body, caller))
    ensures r.response.Fail? ==> r.response.failure == ServerError && r.store == s
    ensures r.response.Ok? ==>
      var id := s.nextId;
      var v := r.response.value.video;
      && r.response.value == ToJson(id, v)
      && r.store == Store(s.videos[id := v], PushOwned(s.users, caller, id), id + 1)
      && Create(UploadDraft(body, caller), now) == Some(v)
      && Valid(v)
      && IsTrimOf(v.title, body.title.value)
      && v.description == body.description.GetOr("")
      && v.videoUrl == Or(body.videoUrl, PlaceholderVideoUrl)
      && v.thumbnailUrl == Or(body.thumbnailUrl, PlaceholderThumbnailUrl)
      && CategoryName(v.category) == body.category.GetOr("other")
      && v.tags == TagsOr(body.tags, [])
      && VideoTypeName(v.videoType) == Or(body.videoType, "short")
      && v.creator == caller
      && v.duration == 0 && v.views == 0 && v.shares == 0
      && v.likes == [] && v.dislikes == [] && v.comments == []
      && v.isPublic && !v.isMonetized
      && v.location == "" && v.language == DefaultLanguage
      && v.createdAt == now && v.updatedAt == now
  {
    var d := UploadDraft(body, caller);
    match Create(d, now)
    case None => Outcome(s, Fail(ServerError))
    case Some(v) =>
      TagsStable(body.tags);
      var id := s.nextId;
      Outcome(Store(s.videos[id := v], PushOwned(s.users, caller, id), id + 1), Ok(ToJson(id, v)))
  }

  /** Only a missing or blank title, an over-long title or description, or
      a category or type outside its enum makes an upload fail: the
      placeholders always fill in the URLs. */
  lemma UploadNeedsOnlyTitle(body: UploadBody, caller: UserId)
    ensures Acceptable(UploadDraft(body, caller)) <==>
      && body.title.Some? && |Trim(body.title.value)| > 0
      && Utf16Length(Trim(body.title.value)) <= TitleMaxLength
      && (body.description.Some? ==> Utf16Length(body.description.value) <= DescriptionMaxLength)
      && (body.category.Some? ==> ParseCategory(body.category.value).Some?)
      && ParseVideoType(Or(body.videoType, "short")).Some?
  {
  }

  /** The database right after a new video `v` by `caller` is inserted. */
  function Inserted(s: Store, caller: UserId, v: Video): Store {
    Store(s.videos[s.nextId := v], PushOwned(s.users, caller, s.nextId), s.nextId + 1)
  }

  /** No user records the next id yet, as a like or as an upload. */
  lemma NextIdUnrecorded(s: Store)
    requires Wellformed(s)
    ensures s.nextId !in s.videos
    ensures forall u :: u in s.users ==> s.nextId !in s.users[u].likes && s.nextId !in s.users[u].videos
  {
  }

  lemma InsertedWellformed(s: Store, caller: UserId, v: Video)
    requires Wellformed(s) && Valid(v)
    ensures Wellformed(Inserted(s, caller, v))
  {
    var t := Inserted(s, caller, v);
    forall u, x | u in t.users && x in t.users[u].videos ensures x < t.nextId {
      if x != s.nextId { assert x in s.users[u].videos; }
    }
    forall u, x | u in t.users && x in t.users[u].likes ensures x < t.nextId {
      assert x in s.users[u].likes;
    }
  }

  lemma InsertedLikesConsistent(s: Store, caller: UserId, v: Video)
    requires Wellformed(s) && LikesConsistent(s) && v.likes == []
    ensures LikesConsistent(Inserted(s, caller, v))
  {
    var t := Inserted(s, caller, v);
    NextIdUnrecorded(s);
    forall vid, u | vid in t.videos && u in t.users
      ensures u in t.videos[vid].likes <==> vid in t.users[u].likes
    {
      assert t.users[u].likes == s.users[u].likes;
    }
  }

  lemma InsertedOwnersConsistent(s: Store, caller: UserId, v: Video)
    requires Wellformed(s) && OwnersConsistent(s) && v.creator == caller
    ensures OwnersConsistent(Inserted(s, caller, v))
  {
    var t := Inserted(s, caller, v);
    NextIdUnrecorded(s);
    forall vid, u | vid in t.videos && u in t.users
      ensures vid in t.users[u].videos <==> t.videos[vid].creator == u
    {
      if u == caller {
        assert t.users[u].videos == s.users[u].videos + [s.nextId];
      }
    }
  }

  /** Inserting a valid, unliked video under a fresh id, recorded as the
      creator's, keeps every invariant. */
  lemma InsertKeepsInvariant(s: Store, caller: UserId, v: Video)
    requires Invariant(s) && Valid(v) && v.likes == [] && v.creator == caller
    ensures Invariant(Inserted(s, caller, v))
  {
    InsertedWellformed(s, caller, v);
    InsertedLikesConsistent(s, caller, v);
    InsertedOwnersConsistent(s, caller, v);
  }

  lemma UploadKeepsInvariant(s: Store, caller: UserId, body: UploadBody, now: int)
    requires Invariant(s)
    ensures Invariant(UploadVideo(s, caller, body, now).store)
  {
    var r := UploadVideo(s, caller, body, now);
    if r.response.Ok? {
      var v := r.response.value.video;
      assert r.store == Inserted(s, caller, v);
      InsertKeepsInvariant(s, caller, v);
    }
  }

  // ---------------------------------------------------------------- update

  /** The JSON body of an update; `isPublic` is taken whenever it is not
      `undefined`. */
  datatype UpdateBody = UpdateBody(
    title: Option<string>,
    description: Option<string>,
    category: Option<string>,
    tags: Option<string>,
    isPublic: Option<bool>)

  /** The assignments `updateVideo` makes before saving: each truthy field
      replaces its path (`title` through the `trim` setter, `tags` split and
      trimmed); None is the enum validator's error for a category that
      names no member. */
  function Edit(v: Video, body: UpdateBody): (r: Option<Video>)
    ensures r.None? <==> Truthy(body.category) && ParseCategory(body.category.value).None?
    ensures r.Some? ==>
      var w := r.value;
      && (Truthy(body.title) ==> IsTrimOf(w.title, body.title.value))
      && (!Truthy(body.title) ==> w.title == v.title)
      && w.description == Or(body.description, v.description)
      && (Truthy(body.category) ==> CategoryName(w.category) == body.category.value)
      && (!Truthy(body.category) ==> w.category == v.category)
      && w.tags == TagsOr(body.tags, v.tags)
      && w.isPublic == body.isPublic.GetOr(v.isPublic)
      && w.(title := v.title, description := v.description, category := v.category,
            tags := v.tags, isPublic := v.isPublic) == v
  {
    var category := if Truthy(body.category) then ParseCategory(body.category.value) else Some(v.category);
    if category.None? then None
    else
      Some(v.(
        title := if Truthy(body.title) then Trim(body.title.value) else v.title,
        description := Or(body.description, v.description),
        category := category.value,
        tags := TagsOr(body.tags, v.tags),
        isPublic := body.isPublic.GetOr(v.isPublic)))
  }

  /** Applying the same edits twice is applying them once. */
  lemma EditIdempotent(v: Video, body: UpdateBody)
    requires Edit(v, body).Some?
    ensures Edit(Edit(v, body).value, body) == Edit(v, body)
  {
  }

  /** `PUT /:id`: only the creator may edit; the edited document is saved
      (validators first), stamped only if something changed. Every failure
      leaves the database as it was. */
  function UpdateVideo(s: Store, caller: UserId, segment: string, body: UpdateBody, now: int): (r: Outcome<VideoJson>)
    ensures r.response.Fail? ==> r.store == s
    ensures FindVideo(s, segment).Fail? ==> r.response == Fail(FindVideo(s, segment).failure)
    ensures FindVideo(s, segment).Ok? && s.videos[FindVideo(s, segment).value].creator != caller ==>
      r.response == Fail(NotAuthorized)
    ensures r.response.Ok? <==>
      && FindVideo(s, segment).Ok?
      && var v := s.videos[FindVideo(s, segment).value];
      && v.creator == caller && Edit(v, body).Some? && Valid(Edit(v, body).value)
    ensures r.response.Ok? ==>
      var id := FindVideo(s, segment).value;
      var v := s.videos[id];
      var e := Edit(v, body).value;
      var w := r.response.value.video;
      && w.(updatedAt := e.updatedAt) == e
      && w.updatedAt == (if e == v then v.updatedAt else now)
      && w.creator == v.creator && w.videoType == v.videoType && w.views == v.views
      && w.likes == v.likes && w.comments == v.comments && w.createdAt == v.createdAt
      && r.response.value == ToJson(id, w)
      && r.store == s.(videos := s.videos[id := w])
  {
    match FindVideo(s, segment)
    case Fail(f) => Outcome(s, Fail(f))
    case Ok(id) =>
      var v := s.videos[id];
      if v.creator != caller then Outcome(s, Fail(NotAuthorized))
      else
        match Edit(v, body)
        case None => Outcome(s, Fail(ServerError))
        case Some(e) =>
          var w := Stamp(v, e, now);
          match SaveVideo(s, id, w)
          case None => Outcome(s, Fail(ServerError))
          case Some(saved) => Outcome(saved, Ok(ToJson(id, w)))
  }

  /** Sending the same update again changes nothing at all, not even
      `updatedAt`: every path already holds its new value. */
  lemma UpdateTwice(s: Store, caller: UserId, segment: string, body: UpdateBody, now1: int, now2: int)
    requires UpdateVideo(s, caller, segment, body, now1).response.Ok?
    ensures var r1 := UpdateVideo(s, caller, segment, body, now1);
      UpdateVideo(r1.store, caller, segment, body, now2) == r1
  {
    var id := FindVideo(s, segment).value;
    var v := s.videos[id];
    EditIdempotent(v, body);
    var e := Edit(v, body).value;
    var r1 := UpdateVideo(s, caller, segment, body, now1);
    var w := r1.response.value.video;
    assert Edit(w, body) == Some(w);
    assert r1.store.videos[id := w] == r1.store.videos;
  }

  lemma UpdateKeepsInvariant(s: Store, caller: UserId, segment: string, body: UpdateBody, now: int)
    requires Invariant(s)
    ensures Invariant(UpdateVideo(s, caller, segment, body, now).store)
  {
    var r := UpdateVideo(s, caller, segment, body, now);
    if r.response.Ok? {
      var id := FindVideo(s, segment).value;
      ResaveKeepsInvariant(s, id, r.response.value.video);
    }
  }

  // ---------------------------------------------------------------- delete

  /** `DELETE /:id`: only the creator may delete; the video goes and its id
      is pulled from the caller's `videos`. Comments, and the ids in other
      users' `likes`, are left as they are. */
  function DeleteVideo(s: Store, caller: UserId, segment: string): (r: Outcome<()>)
    ensures r.response.Fail? ==> r.store == s
    ensures FindVideo(s, segment).Fail? ==> r.response == Fail(FindVideo(s, segment).failure)
    ensures FindVideo(s, segment).Ok? && s.videos[FindVideo(s, segment).value].creator != caller ==>
      r.response == Fail(NotAuthorized)
    ensures r.response.Ok? <==>
      FindVideo(s, segment).Ok? && s.videos[FindVideo(s, segment).value].creator == caller
    ensures r.response.Ok? ==>
      var id := FindVideo(s, segment).value;
      && id !in r.store.videos
      && r.store == Store(s.videos - {id}, PullOwned(s.users, caller, id), s.nextId)
  {
    match FindVideo(s, segment)
    case Fail(f) => Outcome(s, Fail(f))
    case Ok(id) =>
      if s.videos[id].creator != caller then Outcome(s, Fail(NotAuthorized))
      else Outcome(Store(s.videos - {id}, PullOwned(s.users, caller, id), s.nextId), Ok(()))
  }

  lemma DeleteKeepsInvariant(s: Store, caller: UserId, segment: string)
    requires Invariant(s)
    ensures Invariant(DeleteVideo(s, caller, segment).store)
  {
    var r := DeleteVideo(s, caller, segment);
    if r.response.Ok? {
      var id := FindVideo(s, segment).value;
      var t := r.store;
      assert Wellformed(t) by {
        forall u, x | u in t.users && x in t.users[u].videos ensures x < t.nextId {
          assert x in s.users[u].videos;
        }
      }
      assert OwnersConsistent(t) by {
        forall vid, u | vid in t.videos && u in t.users
          ensures vid in t.users[u].videos <==> t.videos[vid].creator == u
        {
          assert vid != id && vid in s.videos;
        }
      }
    }
  }

  /** Removing what was just inserted restores the database, except that
      the id stays used up. */
  lemma RemoveInserted(s: Store, caller: UserId, v: Video)
    requires Wellformed(s)
    ensures var t := Inserted(s, caller, v);
      Store(t.videos - {s.nextId}, PullOwned(t.users, caller, s.nextId), t.nextId)
      == s.(nextId := s.nextId + 1)
  {
    var id := s.nextId;
    var t := Inserted(s, caller, v);
    assert id !in s.videos;
    assert t.videos - {id} == s.videos;
    NextIdUnrecorded(s);
    PullOwnedPushed(s.users, caller, id);
  }

  /** Deleting a video right after uploading it gives back the database as
      it was, except that the id is used up. */
  lemma DeleteUndoesUpload(s: Store, caller: UserId, body: UploadBody, now: int)
    requires Wellformed(s)
    requires Acceptable(UploadDraft(body, caller))
    ensures var up := UploadVideo(s, caller, body, now);
      DeleteVideo(up.store, caller, NatString(s.nextId)) == Outcome(s.(nextId := s.nextId + 1), Ok(()))
  {
    var id := s.nextId;
    var up := UploadVideo(s, caller, body, now);
    var v := up.response.value.video;
    assert up.store == Inserted(s, caller, v);
    FindStored(up.store, id);
    RemoveInserted(s, caller, v);
  }
}
