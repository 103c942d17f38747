/** The abstract MongoDB the controller talks to: videos and users by id, the
    `$push`/`$pull` updates of `User.findByIdAndUpdate`, `findById`'s cast of
    a path segment to an id, and the invariants the handlers keep. */
module Storage {
  import opened Common
  import opened Js
  import VideoModel

  /** The part of a user document the video controller touches: the ids of
      the videos the user owns and of those the user likes. */
  datatype User = User(videos: seq<VideoId>, likes: seq<VideoId>)

  /** Both collections, plus the next id the store will hand out (ObjectIds
      are never reused). */
  datatype Store = Store(
    videos: map<VideoId, VideoModel.Video>,
    users: map<UserId, User>,
    nextId: VideoId)

  /** `$pull` on an array, and also `Array.prototype.filter(y => y != x)`:
      every occurrence of `x` goes, everything else stays in order. */
  function Pull(s: seq<nat>, x: nat): (r: seq<nat>)
    ensures x !in r
    ensures forall y :: y != x ==> (y in r <==> y in s)
    ensures multiset(r) == multiset(s)[x := 0]
    ensures |r| == |s| - multiset(s)[x]
  {
    if |s| == 0 then []
    else
      assert s == [s[0]] + s[1..];
      (if s[0] == x then [] else [s[0]]) + Pull(s[1..], x)
  }

  /** Pulling an id that is not there changes nothing. */
  lemma {:induction false} PullAbsent(s: seq<nat>, x: nat)
    requires x !in s
    ensures Pull(s, x) == s
  {
    if |s| > 0 {
      PullAbsent(s[1..], x);
      assert s == [s[0]] + s[1..];
    }
  }

  /** Pulling what was just pushed gives back the original array, as long
      as the value was not in it before. */
  lemma {:induction false} PullPushed(s: seq<nat>, x: nat)
    requires x !in s
    ensures Pull(s + [x], x) == s
  {
    var t := s + [x];
    if |s| == 0 {
      assert t[1..] == [];
    } else {
      assert t[0] == s[0] && t[1..] == s[1..] + [x];
      PullPushed(s[1..], x);
      calc {
        Pull(t, x);
        [s[0]] + Pull(s[1..] + [x], x);
        [s[0]] + s[1..];
        s;
      }
    }
  }

  /** No id occurs twice in `s`. */
  ghost predicate NoRepeats(s: seq<nat>) {
    forall x :: multiset(s)[x] <= 1
  }

  /** Pulling keeps an array free of repeats, and pushing an id that is not
      there yet does too. */
  lemma PullPushNoRepeats(s: seq<nat>, x: nat)
    requires NoRepeats(s)
    ensures NoRepeats(Pull(s, x))
    ensures x !in s ==> NoRepeats(s + [x])
  {
    assert multiset(s + [x]) == multiset(s) + multiset{x};
  }

  /** `User.findByIdAndUpdate(uid, update)`: applies `update` to the user's
      document, and does nothing when no user has that id. */
  function UpdateUser(users: map<UserId, User>, uid: UserId, update: User -> User): (r: map<UserId, User>)
    ensures r.Keys == users.Keys
    ensures uid in users ==> r[uid] == update(users[uid])
    ensures forall u :: u in users && u != uid ==> r[u] == users[u]
  {
    if uid in users then users[uid := update(users[uid])] else users
  }

  /** `$push: { videos: id }` on user `uid`. */
  function PushOwned(users: map<UserId, User>, uid: UserId, id: VideoId): (r: map<UserId, User>)
    ensures r.Keys == users.Keys
    ensures uid in users ==> r[uid] == users[uid].(videos := users[uid].videos + [id])
    ensures forall u :: u in users && u != uid ==> r[u] == users[u]
  {
    UpdateUser(users, uid, (u: User) => u.(videos := u.videos + [id]))
  }

  /** `$pull: { videos: id }` on user `uid`. */
  function PullOwned(users: map<UserId, User>, uid: UserId, id: VideoId): (r: map<UserId, User>)
    ensures r.Keys == users.Keys
    ensures uid in users ==> r[uid] == users[uid].(videos := Pull(users[uid].videos, id))
    ensures forall u :: u in users && u != uid ==> r[u] == users[u]
  {
    UpdateUser(users, uid, (u: User) => u.(videos := Pull(u.videos, id)))
  }

  /** `$push: { likes: id }` on user `uid`. */
  function PushLike(users: map<UserId, User>, uid: UserId, id: VideoId): (r: map<UserId, User>)
    ensures r.Keys == users.Keys
    ensures uid in users ==> r[uid] == users[uid].(likes := users[uid].likes + [id])
    ensures forall u :: u in users && u != uid ==> r[u] == users[u]
  {
    UpdateUser(users, uid, (u: User) => u.(likes := u.likes + [id]))
  }

  /** `$pull: { likes: id }` on user `uid`. */
  function PullLike(users: map<UserId, User>, uid: UserId, id: VideoId): (r: map<UserId, User>)
    ensures r.Keys == users.Keys
    ensures uid in users ==> r[uid] == users[uid].(likes := Pull(users[uid].likes, id))
    ensures forall u :: u in users && u != uid ==> r[u] == users[u]
  {
    UpdateUser(users, uid, (u: User) => u.(likes := Pull(u.likes, id)))
  }

  /** Pulling a like just pushed gives back every user as they were. */
  lemma PullLikePushed(users: map<UserId, User>, uid: UserId, id: VideoId)
    requires uid in users ==> id !in users[uid].likes
    ensures PullLike(PushLike(users, uid, id), uid, id) == users
  {
    var r := PullLike(PushLike(users, uid, id), uid, id);
    if uid in users {
      PullPushed(users[uid].likes, id);
      assert r[uid] == users[uid];
    }
    assert forall u :: u in r ==> r[u] == users[u];
  }

  /** Pulling an owned video just pushed gives back every user as they were. */
  lemma PullOwnedPushed(users: map<UserId, User>, uid: UserId, id: VideoId)
    requires uid in users ==> id !in users[uid].videos
    ensures PullOwned(PushOwned(users, uid, id), uid, id) == users
  {
    var r := PullOwned(PushOwned(users, uid, id), uid, id);
    if uid in users {
      PullPushed(users[uid].videos, id);
      assert r[uid] == users[uid];
    }
    assert forall u :: u in r ==> r[u] == users[u];
  }

  /** `document.save()` of a video: the validators run first, and nothing is
      written when they fail. */
  function SaveVideo(s: Store, id: VideoId, v: VideoModel.Video): (r: Option<Store>)
    ensures r.Some? <==> VideoModel.Valid(v)
    ensures r.Some? ==> r.value.videos == s.videos[id := v]
    ensures r.Some? ==> r.value.users == s.users && r.value.nextId == s.nextId
  {
    if VideoModel.Valid(v) then Some(s.(videos := s.videos[id := v])) else None
  }

  /** The timestamps plugin: a save stamps `updatedAt` only when some path
      was actually modified. */
  function Stamp(before: VideoModel.Video, after: VideoModel.Video, now: int): (v: VideoModel.Video)
    ensures v.(updatedAt := after.updatedAt) == after
    ensures after == before ==> v == before
    ensures after != before ==> v.updatedAt == now
  {
    if after == before then before else after.(updatedAt := now)
  }

  // ---------------------------------------------------------------- ids

  /** `findById` casts the `:id` path segment to an id; ids are written as
      decimal naturals without leading zeros. None is the CastError that a
      segment of any other shape raises. */
  function CastId(segment: string): (r: Option<VideoId>)
    ensures r.Some? ==> NatString(r.value) == segment
  {
    if |segment| > 0 && DigitRun(segment, 10) == |segment| && (segment[0] != '0' || |segment| == 1) then
      NatStringOfValue(segment);
      Some(ValueOf(segment, 10))
    else
      None
  }

  lemma {:induction false} ValuePositive(d: string)
    requires |d| > 0 && d[0] != '0'
    requires forall k :: 0 <= k < |d| ==> DigitValue(d[k]) < 10
    ensures ValueOf(d, 10) >= 1
    decreases |d|
  {
    if |d| > 1 {
      ValuePositive(d[..|d| - 1]);
    } else {
      assert '1' <= d[0] <= '9';
    }
  }

  lemma DivModTen(q: nat, r: nat)
    requires r < 10
    ensures (q * 10 + r) / 10 == q && (q * 10 + r) % 10 == r
  {
  }

  /** Appending a digit to a positive number appends its character. */
  lemma NatStringStep(q: nat, digit: nat)
    requires q >= 1 && digit < 10
    ensures NatString(q * 10 + digit) == NatString(q) + [DigitChar(digit)]
  {
    DivModTen(q, digit);
  }

  /** The character of a decimal digit is that digit. */
  lemma DigitCharOf(c: char)
    requires DigitValue(c) < 10
    ensures DigitChar(DigitValue(c)) == c
  {
  }

  /** One digit more: if `front` prints its own value, so does `front`
      followed by a digit. */
  lemma NatStringOfValueStep(d: string, front: string, last: char)
    requires d == front + [last] && DigitValue(last) < 10
    requires ValueOf(front, 10) >= 1 && NatString(ValueOf(front, 10)) == front
    ensures NatString(ValueOf(d, 10)) == d
  {
    assert d[..|d| - 1] == front && d[|d| - 1] == last;
    DigitCharOf(last);
    NatStringStep(ValueOf(front, 10), DigitValue(last));
  }

  /** A canonical digit string is the decimal text of its own value. */
  lemma {:induction false} NatStringOfValue(d: string)
    requires |d| > 0 && DigitRun(d, 10) == |d| && (d[0] != '0' || |d| == 1)
    ensures NatString(ValueOf(d, 10)) == d
    decreases |d|
  {
    var last := d[|d| - 1];
    if |d| > 1 {
      var front := d[..|d| - 1];
      assert front + [last] == d;
      assert DigitRun(front, 10) == |front| by {
        DigitRunOfDigits(front, [], 10);
        assert front + [] == front;
      }
      ValuePositive(front);
      NatStringOfValue(front);
      NatStringOfValueStep(d, front, last);
    } else {
      DigitCharOf(last);
      assert d == [last] && d[..0] == [];
    }
  }

  /** Every id casts back from its own text. */
  lemma CastIdOfNatString(id: VideoId)
    ensures CastId(NatString(id)) == Some(id)
  {
    var s := NatString(id);
    DigitRunOfDigits(s, [], 10);
    assert s + [] == s;
    ValueOfNatString(id);
  }

  /** What a handler leaves behind: the database and its response. */
  datatype Outcome<+T> = Outcome(store: Store, response: Result<T>)

  /** `Video.findById(req.params.id)` and the `if (!video)` check that
      follows it: a segment that is no id throws (500), an id nobody holds
      is a 404. */
  function FindVideo(s: Store, segment: string): (r: Result<VideoId>)
    ensures r.Ok? <==> CastId(segment).Some? && CastId(segment).value in s.videos
    ensures r.Ok? ==> r.value == CastId(segment).value
    ensures r.Fail? ==> r.failure == if CastId(segment).None? then ServerError else NotFound
  {
    match CastId(segment)
    case None => Fail(ServerError)
    case Some(id) => if id in s.videos then Ok(id) else Fail(NotFound)
  }

  /** A stored video is found by its own id. */
  lemma FindStored(s: Store, id: VideoId)
    requires id in s.videos
    ensures FindVideo(s, NatString(id)) == Ok(id)
  {
    CastIdOfNatString(id);
  }

  // ---------------------------------------------------------------- invariants

  /** Every id the store mentions was issued, and every stored video passes
      the schema's validators (each got there through a validated save). */
  ghost predicate Wellformed(s: Store) {
    && (forall id :: id in s.videos ==> id < s.nextId && VideoModel.Valid(s.videos[id]))
    && (forall u, x :: u in s.users && x in s.users[u].videos ==> x < s.nextId)
    && (forall u, x :: u in s.users && x in s.users[u].likes ==> x < s.nextId)
  }

  /** A user is in a video's `likes` exactly when the video is in the user's
      `likes`, for every stored video and user. */
  ghost predicate LikesConsistent(s: Store) {
    forall id, u :: id in s.videos && u in s.users ==>
      (u in s.videos[id].likes <==> id in s.users[u].likes)
  }

  /** A video is in a user's `videos` exactly when that user created it. */
  ghost predicate OwnersConsistent(s: Store) {
    forall id, u :: id in s.videos && u in s.users ==>
      (id in s.users[u].videos <==> s.videos[id].creator == u)
  }

  /** No video lists a user twice in its `likes`, and no user a video. */
  ghost predicate LikesUnique(s: Store) {
    && (forall id :: id in s.videos ==> NoRepeats(s.videos[id].likes))
    && (forall u :: u in s.users ==> NoRepeats(s.users[u].likes))
  }

  ghost predicate Invariant(s: Store) {
    Wellformed(s) && LikesConsistent(s) && OwnersConsistent(s) && LikesUnique(s)
  }

  /** Saving a valid video over a stored one with the same `likes` and
      `creator` keeps every invariant. */
  lemma ResaveKeepsInvariant(s: Store, id: VideoId, w: VideoModel.Video)
    requires Invariant(s) && id in s.videos && VideoModel.Valid(w)
    requires w.likes == s.videos[id].likes && w.creator == s.videos[id].creator
    ensures Invariant(s.(videos := s.videos[id := w]))
  {
    var t := s.(videos := s.videos[id := w]);
    assert Wellformed(t);
    assert LikesConsistent(t) by {
      forall vid, u | vid in t.videos && u in t.users
        ensures u in t.videos[vid].likes <==> vid in t.users[u].likes
      {
        assert t.videos[vid].likes == s.videos[vid].likes;
      }
    }
    assert OwnersConsistent(t) by {
      forall vid, u | vid in t.videos && u in t.users
        ensures vid in t.users[u].videos <==> t.videos[vid].creator == u
      {
        assert t.videos[vid].creator == s.videos[vid].creator;
      }
    }
    assert LikesUnique(t) by {
      forall vid | vid in t.videos ensures NoRepeats(t.videos[vid].likes) {
        assert t.videos[vid].likes == s.videos[vid].likes;
      }
    }
  }

  /** The empty database satisfies the invariant. */
  lemma EmptyInvariant()
    ensures Invariant(Store(map[], map[], 0))
  {
  }
}
