/** The `.sort({...})` specifications of the feeds: descending keys compared
    in turn, over the values the stored documents actually hold. */
module Ordering {
  import opened Common
  import opened VideoModel

  /** One key of a sort specification; every key the feeds use is `-1`. */
  datatype SortKey = ByViews | ByLikeCount | ByCreatedAt

  /** The value MongoDB sorts a stored video by. `likeCount` is a virtual of
      the schema: no stored document holds it, and a missing field sorts as
      null. */
  function StoredKey(v: Video, k: SortKey): Option<int> {
    match k
    case ByViews => Some(v.views)
    case ByLikeCount => None
    case ByCreatedAt => Some(v.createdAt)
  }

  /** `x` comes strictly first under a descending key; null is below every
      number, so it comes last. */
  predicate Above(x: Option<int>, y: Option<int>) {
    match (x, y)
    case (Some(a), Some(b)) => a > b
    case (Some(_), None) => true
    case (None, _) => false
  }

  /** `a` may be listed before `b`: the first key on which they differ puts
      `a` first, or they agree on every key. */
  predicate Precedes(keys: seq<SortKey>, a: Video, b: Video)
    decreases |keys|
  {
    if |keys| == 0 then true
    else
      var x, y := StoredKey(a, keys[0]), StoredKey(b, keys[0]);
      if x == y then Precedes(keys[1..], a, b) else Above(x, y)
  }

  lemma {:induction false} PrecedesTotal(keys: seq<SortKey>, a: Video, b: Video)
    ensures Precedes(keys, a, b) || Precedes(keys, b, a)
    decreases |keys|
  {
    if |keys| > 0 && StoredKey(a, keys[0]) == StoredKey(b, keys[0]) {
      PrecedesTotal(keys[1..], a, b);
    }
  }

  lemma {:induction false} PrecedesTransitive(keys: seq<SortKey>, a: Video, b: Video, c: Video)
    requires Precedes(keys, a, b) && Precedes(keys, b, c)
    ensures Precedes(keys, a, c)
    decreases |keys|
  {
    if |keys| > 0 {
      var x, y, z := StoredKey(a, keys[0]), StoredKey(b, keys[0]), StoredKey(c, keys[0]);
      if x == y && y == z {
        PrecedesTransitive(keys[1..], a, b, c);
      }
    }
  }

  /** A video listed together with its id. */
  datatype Entry = Entry(id: VideoId, doc: Video)

  ghost predicate SortedBy(keys: seq<SortKey>, s: seq<Entry>) {
    forall i, j :: 0 <= i < j < |s| ==> Precedes(keys, s[i].doc, s[j].doc)
  }

  /** `e` may be listed before every entry of `s`. */
  ghost predicate PrecedesAll(keys: seq<SortKey>, e: Entry, s: seq<Entry>) {
    forall k :: 0 <= k < |s| ==> Precedes(keys, e.doc, s[k].doc)
  }

  lemma PrependSorted(keys: seq<SortKey>, e: Entry, s: seq<Entry>)
    requires SortedBy(keys, s) && PrecedesAll(keys, e, s)
    ensures SortedBy(keys, [e] + s)
  {
    var r := [e] + s;
    forall i, j | 0 <= i < j < |r| ensures Precedes(keys, r[i].doc, r[j].doc) {
      if i > 0 {
        assert r[i] == s[i - 1] && r[j] == s[j - 1];
      } else {
        assert r[j] == s[j - 1];
      }
    }
  }

  /** If `e` may come before the head of a sorted listing, it may come
      before all of it. */
  lemma PrecedesHead(keys: seq<SortKey>, e: Entry, s: seq<Entry>)
    requires SortedBy(keys, s) && |s| > 0 && Precedes(keys, e.doc, s[0].doc)
    ensures PrecedesAll(keys, e, s)
  {
    forall k | 0 < k < |s| ensures Precedes(keys, e.doc, s[k].doc) {
      PrecedesTransitive(keys, e.doc, s[0].doc, s[k].doc);
    }
  }

  /** The head of a sorted listing may come before all of its tail. */
  lemma HeadPrecedesTail(keys: seq<SortKey>, s: seq<Entry>)
    requires SortedBy(keys, s) && |s| > 0
    ensures PrecedesAll(keys, s[0], s[1..])
  {
    forall k | 0 <= k < |s[1..]| ensures Precedes(keys, s[0].doc, s[1..][k].doc) {
      assert s[1..][k] == s[k + 1];
    }
  }

  /** What may come before every entry of `t` and before `e` may come
      before every entry of any rearrangement of `t` with `e` added. */
  lemma PrecedesAllPermuted(keys: seq<SortKey>, x: Entry, e: Entry, t: seq<Entry>, r: seq<Entry>)
    requires PrecedesAll(keys, x, t) && Precedes(keys, x.doc, e.doc)
    requires multiset(r) == multiset(t) + multiset{e}
    ensures PrecedesAll(keys, x, r)
  {
    forall k | 0 <= k < |r| ensures Precedes(keys, x.doc, r[k].doc) {
      assert r[k] in multiset(r);
      if r[k] != e {
        assert r[k] in t;
        var m :| 0 <= m < |t| && t[m] == r[k];
      }
    }
  }

  /** Insert `e` into a sorted listing, in front of every entry it does not
      strictly follow. */
  function Insert(keys: seq<SortKey>, e: Entry, s: seq<Entry>): (r: seq<Entry>)
    requires SortedBy(keys, s)
    ensures SortedBy(keys, r)
    ensures multiset(r) == multiset(s) + multiset{e}
  {
    if |s| == 0 then [e]
    else if Precedes(keys, s[0].doc, e.doc) && !Precedes(keys, e.doc, s[0].doc) then
      var rest := Insert(keys, e, s[1..]);
      HeadPrecedesTail(keys, s);
      PrecedesAllPermuted(keys, s[0], e, s[1..], rest);
      PrependSorted(keys, s[0], rest);
      assert s == [s[0]] + s[1..];
      [s[0]] + rest
    else
      PrecedesTotal(keys, s[0].doc, e.doc);
      PrecedesHead(keys, e, s);
      PrependSorted(keys, e, s);
      [e] + s
  }

  /** Insertion sort under the keys: a sorted permutation of the listing. */
  function Sort(keys: seq<SortKey>, s: seq<Entry>): (r: seq<Entry>)
    ensures SortedBy(keys, r)
    ensures multiset(r) == multiset(s)
  {
    if |s| == 0 then []
    else
      assert s == [s[0]] + s[1..];
      Insert(keys, s[0], Sort(keys, s[1..]))
  }

  /** The key list of the recommended feed, as written. */
  const RecommendedKeys: seq<SortKey> := [ByViews, ByLikeCount, ByCreatedAt]

  /** The same list with the never-stored `likeCount` left out. */
  const EffectiveRecommendedKeys: seq<SortKey> := [ByViews, ByCreatedAt]

  /** The `likeCount` key of the recommended sort has no effect: every stored
      document ties on it, so the order is views first, then recency. */
  lemma LikeCountKeyInert(a: Video, b: Video)
    ensures Precedes(RecommendedKeys, a, b) == Precedes(EffectiveRecommendedKeys, a, b)
  {
    assert RecommendedKeys[1..] == [ByLikeCount, ByCreatedAt];
    assert RecommendedKeys[1..][1..] == [ByCreatedAt] == EffectiveRecommendedKeys[1..];
  }

  /** How many likes a video has never moves it in the recommended order. */
  lemma RecommendedOrderIgnoresLikes(a: Video, b: Video, likes: seq<UserId>)
    ensures Precedes(RecommendedKeys, a.(likes := likes), b) == Precedes(RecommendedKeys, a, b)
    ensures Precedes(RecommendedKeys, b, a.(likes := likes)) == Precedes(RecommendedKeys, b, a)
  {
    LikeCountKeyInert(a, b);
    LikeCountKeyInert(b, a);
    LikeCountKeyInert(a.(likes := likes), b);
    LikeCountKeyInert(b, a.(likes := likes));
    assert EffectiveRecommendedKeys[1..] == [ByCreatedAt];
  }

  lemma {:induction false} InsertSameOrder(k1: seq<SortKey>, k2: seq<SortKey>, e: Entry, s: seq<Entry>)
    requires forall a: Video, b: Video :: Precedes(k1, a, b) == Precedes(k2, a, b)
    requires SortedBy(k1, s) && SortedBy(k2, s)
    ensures Insert(k1, e, s) == Insert(k2, e, s)
  {
    if |s| > 0 {
      InsertSameOrder(k1, k2, e, s[1..]);
    }
  }

  /** Sorting by the recommended keys and by the keys without `likeCount`
      gives the same listing. */
  lemma {:induction false} RecommendedSortIgnoresLikeCount(s: seq<Entry>)
    ensures Sort(RecommendedKeys, s) == Sort(EffectiveRecommendedKeys, s)
  {
    forall a: Video, b: Video
      ensures Precedes(RecommendedKeys, a, b) == Precedes(EffectiveRecommendedKeys, a, b)
    {
      LikeCountKeyInert(a, b);
    }
    if |s| > 0 {
      RecommendedSortIgnoresLikeCount(s[1..]);
      var t := Sort(RecommendedKeys, s[1..]);
      InsertSameOrder(RecommendedKeys, EffectiveRecommendedKeys, s[0], t);
    }
  }
}
