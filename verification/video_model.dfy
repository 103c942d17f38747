/** The Video document: its fields, the defaults and setters Mongoose applies
    when one is created, the validators it runs before every save, and the
    virtual counts it adds when a document is serialised. */
module VideoModel {
  import opened Common
  import opened Js

  datatype Category =
    Entertainment | Education | Sports | Music | Comedy | Lifestyle | News | Other

  function CategoryName(c: Category): string {
    match c
    case Entertainment => "entertainment"
    case Education => "education"
    case Sports => "sports"
    case Music => "music"
    case Comedy => "comedy"
    case Lifestyle => "lifestyle"
    case News => "news"
    case Other => "other"
  }

  /** The `enum` validator of `category`: exactly the eight names pass. */
  function ParseCategory(s: string): (r: Option<Category>)
    ensures r.Some? ==> CategoryName(r.value) == s
  {
    if s == "entertainment" then Some(Entertainment)
    else if s == "education" then Some(Education)
    else if s == "sports" then Some(Sports)
    else if s == "music" then Some(Music)
    else if s == "comedy" then Some(Comedy)
    else if s == "lifestyle" then Some(Lifestyle)
    else if s == "news" then Some(News)
    else if s == "other" then Some(Other)
    else None
  }

  /** The enum accepts a string exactly when it names a category. */
  lemma CategoryEnum(s: string, c: Category)
    ensures ParseCategory(s) == Some(c) <==> CategoryName(c) == s
  {
  }

  datatype VideoType = Short | Long

  function VideoTypeName(t: VideoType): string {
    match t
    case Short => "short"
    case Long => "long"
  }

  /** The `enum` validator of `videoType`. */
  function ParseVideoType(s: string): (r: Option<VideoType>)
    ensures r.Some? ==> VideoTypeName(r.value) == s
  {
    if s == "short" then Some(Short) else if s == "long" then Some(Long) else None
  }

  lemma VideoTypeEnum(s: string, t: VideoType)
    ensures ParseVideoType(s) == Some(t) <==> VideoTypeName(t) == s
  {
  }

  const TitleMaxLength := 100
  const DescriptionMaxLength := 500
  const DefaultLanguage := "zh-CN"

  /** A stored video. `createdAt` and `updatedAt` are the timestamps the
      schema option `timestamps: true` maintains. */
  datatype Video = Video(
    title: string,
    description: string,
    videoUrl: string,
    thumbnailUrl: string,
    duration: int,
    views: int,
    likes: seq<UserId>,
    dislikes: seq<UserId>,
    comments: seq<CommentId>,
    shares: int,
    category: Category,
    tags: seq<string>,
    isPublic: bool,
    isMonetized: bool,
    creator: UserId,
    location: string,
    language: string,
    videoType: VideoType,
    createdAt: int,
    updatedAt: int)

  /** The validators Mongoose runs before a save: `title` is required (so
      not empty) and at most 100 UTF-16 units, `description` at most 500,
      `videoUrl` required. The enums and `creator` are enforced by the types
      of the fields. */
  predicate Valid(v: Video) {
    && |v.title| > 0
    && Utf16Length(v.title) <= TitleMaxLength
    && Utf16Length(v.description) <= DescriptionMaxLength
    && |v.videoUrl| > 0
  }

  /** The fields handed to `Video.create`, each absent (`undefined`) or given. */
  datatype VideoDraft = VideoDraft(
    title: Option<string>,
    description: Option<string>,
    videoUrl: Option<string>,
    thumbnailUrl: Option<string>,
    category: Option<string>,
    tags: seq<string>,
    videoType: Option<string>,
    creator: Option<UserId>)

  /** What the schema accepts: every required path given (a required string
      must also be non-empty), the title within bounds once trimmed, the
      description within bounds, and the enum paths naming a member. */
  predicate Acceptable(d: VideoDraft) {
    && d.title.Some? && |Trim(d.title.value)| > 0
    && Utf16Length(Trim(d.title.value)) <= TitleMaxLength
    && (d.description.Some? ==> Utf16Length(d.description.value) <= DescriptionMaxLength)
    && d.videoUrl.Some? && |d.videoUrl.value| > 0
    && (d.category.Some? ==> ParseCategory(d.category.value).Some?)
    && (d.videoType.Some? ==> ParseVideoType(d.videoType.value).Some?)
    && d.creator.Some?
  }

  function TrimAll(ss: seq<string>): (r: seq<string>)
    ensures |r| == |ss|
    ensures forall k :: 0 <= k < |r| ==> IsTrimOf(r[k], ss[k])
  {
    seq(|ss|, k requires 0 <= k < |ss| => Trim(ss[k]))
  }

  /** The document `new Video(d)` builds at time `now`: the `trim` setters
      on `title` and on every tag, and the declared defaults. None when a
      required path is absent or an enum path names no member, since then
      no document of the schema's shape exists. */
  function Cast(d: VideoDraft, now: int): (r: Option<Video>)
    ensures r.Some? <==>
      && d.title.Some? && d.videoUrl.Some? && d.creator.Some?
      && (d.category.Some? ==> ParseCategory(d.category.value).Some?)
      && (d.videoType.Some? ==> ParseVideoType(d.videoType.value).Some?)
    ensures r.Some? ==> var v := r.value;
      && IsTrimOf(v.title, d.title.value)
      && v.description == d.description.GetOr("")
      && v.videoUrl == d.videoUrl.value
      && v.thumbnailUrl == d.thumbnailUrl.GetOr("")
      && CategoryName(v.category) == d.category.GetOr("other")
      && |v.tags| == |d.tags|
      && (forall k :: 0 <= k < |v.tags| ==> IsTrimOf(v.tags[k], d.tags[k]))
      && VideoTypeName(v.videoType) == d.videoType.GetOr("short")
      && v.creator == d.creator.value
      && v.duration == 0 && v.views == 0 && v.shares == 0
      && v.likes == [] && v.dislikes == [] && v.comments == []
      && v.isPublic && !v.isMonetized
      && v.location == "" && v.language == DefaultLanguage
      && v.createdAt == now && v.updatedAt == now
  {
    var category := if d.category.None? then Some(Other) else ParseCategory(d.category.value);
    var videoType := if d.videoType.None? then Some(Short) else ParseVideoType(d.videoType.value);
    if d.title.None? || d.videoUrl.None? || d.creator.None? || category.None? || videoType.None? then
      None
    else
      Some(Video(
        title := Trim(d.title.value),
        description := d.description.GetOr(""),
        videoUrl := d.videoUrl.value,
        thumbnailUrl := d.thumbnailUrl.GetOr(""),
        duration := 0,
        views := 0,
        likes := [],
        dislikes := [],
        comments := [],
        shares := 0,
        category := category.value,
        tags := TrimAll(d.tags),
        isPublic := true,
        isMonetized := false,
        creator := d.creator.value,
        location := "",
        language := DefaultLanguage,
        videoType := videoType.value,
        createdAt := now,
        updatedAt := now))
  }

  /** `Video.create(d)` at time `now`: build the document, then validate it;
      None is the ValidationError Mongoose throws. */
  function Create(d: VideoDraft, now: int): (r: Option<Video>)
    ensures r.Some? <==> Acceptable(d)
    ensures r.Some? ==> Valid(r.value) && r == Cast(d, now)
  {
    var v := Cast(d, now);
    if v.Some? && Valid(v.value) then v else None
  }

  /** A draft missing `title`, `videoUrl` or `creator` never becomes a
      video. */
  lemma RequiredPaths(d: VideoDraft, now: int)
    requires d.videoUrl.None? || d.creator.None? || d.title.None?
    ensures Create(d, now).None?
  {
  }

  /** A video as a response carries it: the document plus the virtual
      `likeCount` and `commentCount` (`toJSON` with `virtuals: true`). */
  datatype VideoJson = VideoJson(id: VideoId, video: Video, likeCount: nat, commentCount: nat)

  /** Serialise a stored video; the virtuals are read off the id lists and
      are never stored, so they cannot drift from them. */
  function ToJson(id: VideoId, v: Video): (j: VideoJson)
    ensures j.id == id && j.video == v
    ensures j.likeCount == |v.likes| && j.commentCount == |v.comments|
  {
    VideoJson(id, v, |v.likes|, |v.comments|)
  }
}
