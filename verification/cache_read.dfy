/** Reading the feed from the cache: fetch every post sorted by id, then keep
    only the posts that have a linked user, joined to that user. */
module CacheRead {
  import opened Wrappers
  import opened Entities
  import opened Ordering
  import opened FeedPosts

  /** The feed view of post `p` joined to user `u`; absent optional strings read as "". */
  function Join(p: PostEntity, u: UserEntity): FeedPost {
    FeedPost(p.id, u.name.GetOr(""), p.title.GetOr(""), p.body.GetOr(""), p.isLiked, p.userId)
  }

  /** The per-entity step of the read: a post without a user yields nothing. */
  function ViewOf(p: PostEntity): (r: Option<FeedPost>)
    ensures r.Some? <==> p.user.Some?
    ensures r.Some? ==> r.value.id == p.id
  {
    match p.user
    case None => None
    case Some(u) => Some(Join(p, u))
  }

  /** Keeps, in order, the views of the posts that have one. */
  function CompactMap(ps: seq<PostEntity>): seq<FeedPost> {
    if ps == [] then []
    else
      match ViewOf(ps[0])
      case None => CompactMap(ps[1..])
      case Some(f) => [f] + CompactMap(ps[1..])
  }

  /** The stored posts in ascending id order (the sorted fetch request). */
  function SortedPosts(st: Store): (r: seq<PostEntity>)
    ensures |r| == |st.posts|
  {
    var keys := SortedKeys(st.posts.Keys);
    SortedKeysOrdered(st.posts.Keys);
    seq(|keys|, i requires 0 <= i < |keys| => st.posts[keys[i]])
  }

  /** The feed as read from the cache. */
  function Read(st: Store): seq<FeedPost> {
    CompactMap(SortedPosts(st))
  }

  /** The sorted fetch returns every cached post and nothing else; for a well
      formed cache the ids strictly increase, so each post comes out once, in
      ascending id order. */
  lemma SortedPostsContents(st: Store)
    ensures forall k | k in st.posts :: st.posts[k] in SortedPosts(st)
    ensures forall i | 0 <= i < |SortedPosts(st)| :: SortedPosts(st)[i] in st.posts.Values
    ensures Valid(st) ==>
      forall i, j | 0 <= i < j < |SortedPosts(st)| :: SortedPosts(st)[i].id < SortedPosts(st)[j].id
  {
    var ps := SortedPosts(st);
    var keys := SortedKeys(st.posts.Keys);
    SortedKeysOrdered(st.posts.Keys);
    forall k | k in st.posts ensures st.posts[k] in ps {
      var i :| 0 <= i < |keys| && keys[i] == k;
      assert ps[i] == st.posts[k];
    }
    forall i | 0 <= i < |ps| ensures ps[i] in st.posts.Values {
      assert ps[i] == st.posts[keys[i]];
    }
    if Valid(st) {
      forall i, j | 0 <= i < j < |ps| ensures ps[i].id < ps[j].id {
        assert ps[i].id == keys[i] && ps[j].id == keys[j];
      }
    }
  }

  /** A feed post comes out of `CompactMap` exactly when some input post has it as its view. */
  lemma {:induction false} CompactMapContents(ps: seq<PostEntity>, f: FeedPost)
    ensures f in CompactMap(ps) <==> exists i :: 0 <= i < |ps| && ViewOf(ps[i]) == Some(f)
  {
    if ps != [] {
      CompactMapContents(ps[1..], f);
      if exists i :: 0 <= i < |ps[1..]| && ViewOf(ps[1..][i]) == Some(f) {
        var i :| 0 <= i < |ps[1..]| && ViewOf(ps[1..][i]) == Some(f);
        assert ViewOf(ps[i + 1]) == Some(f);
      }
      if exists i :: 0 <= i < |ps| && ViewOf(ps[i]) == Some(f) {
        var i :| 0 <= i < |ps| && ViewOf(ps[i]) == Some(f);
        if i > 0 {
          assert ViewOf(ps[1..][i - 1]) == Some(f);
        }
      }
    }
  }

  /** `CompactMap` keeps the order of its input: when the input ids increase, so do the output ids. */
  lemma {:induction false} CompactMapOrder(ps: seq<PostEntity>)
    requires forall i, j | 0 <= i < j < |ps| :: ps[i].id < ps[j].id
    ensures StrictlyIncreasing(Ids(CompactMap(ps)))
  {
    if ps != [] {
      var tail := CompactMap(ps[1..]);
      CompactMapOrder(ps[1..]);
      forall k | 0 <= k < |tail|
        ensures ps[0].id < tail[k].id
      {
        CompactMapContents(ps[1..], tail[k]);
        var i :| 0 <= i < |ps[1..]| && ViewOf(ps[1..][i]) == Some(tail[k]);
        assert ps[1..][i] == ps[i + 1];
      }
      match ViewOf(ps[0])
      case None =>
      case Some(f) =>
        var r := [f] + tail;
        assert CompactMap(ps) == r;
        forall i, j | 0 <= i < j < |r| ensures r[i].id < r[j].id {
          if i > 0 {
            assert r[i] == tail[i - 1] && r[j] == tail[j - 1];
          } else {
            assert r[j] == tail[j - 1];
          }
        }
    }
  }

  /** The read returns exactly the stored posts that have a linked user, each
      joined to that user (the user's name, or "" when it has none). */
  lemma ReadContents(st: Store, f: FeedPost)
    ensures f in Read(st) <==>
      exists k :: k in st.posts && st.posts[k].user.Some? && f == Join(st.posts[k], st.posts[k].user.value)
  {
    var ps := SortedPosts(st);
    var keys := SortedKeys(st.posts.Keys);
    SortedKeysOrdered(st.posts.Keys);
    CompactMapContents(ps, f);
    if exists k :: k in st.posts && st.posts[k].user.Some? && f == Join(st.posts[k], st.posts[k].user.value) {
      var k :| k in st.posts && st.posts[k].user.Some? && f == Join(st.posts[k], st.posts[k].user.value);
      assert k in keys;
      var i :| 0 <= i < |keys| && keys[i] == k;
      assert ViewOf(ps[i]) == Some(f);
    }
    if f in Read(st) {
      var i :| 0 <= i < |ps| && ViewOf(ps[i]) == Some(f);
      assert ps[i] == st.posts[keys[i]];
    }
  }

  /** The read is sorted by id, ascending, with no id twice. */
  lemma ReadSorted(st: Store)
    requires Valid(st)
    ensures StrictlyIncreasing(Ids(Read(st)))
  {
    var ps := SortedPosts(st);
    var keys := SortedKeys(st.posts.Keys);
    SortedKeysOrdered(st.posts.Keys);
    forall i, j | 0 <= i < j < |ps| ensures ps[i].id < ps[j].id {
      assert ps[i].id == keys[i] && ps[j].id == keys[j];
    }
    CompactMapOrder(ps);
  }

  /** The read has one entry per post that has a linked user. */
  lemma ReadLength(st: Store)
    requires Valid(st)
    ensures |Read(st)| == |LinkedIds(st)|
  {
    var r := Read(st);
    var ids := Ids(r);
    ReadSorted(st);
    IncreasingLength(ids);
    var idSet := set x | x in ids;
    forall k ensures k in idSet <==> k in LinkedIds(st) {
      if k in idSet {
        var i :| 0 <= i < |ids| && ids[i] == k;
        ReadContents(st, r[i]);
      }
      if k in LinkedIds(st) {
        var p := st.posts[k];
        ReadContents(st, Join(p, p.user.value));
        var i :| 0 <= i < |r| && r[i] == Join(p, p.user.value);
        assert ids[i] == k;
      }
    }
    assert idSet == LinkedIds(st);
  }

  /** The read is empty exactly when no stored post has a linked user. */
  lemma ReadEmpty(st: Store)
    ensures Read(st) == [] <==> LinkedIds(st) == {}
  {
    if Read(st) != [] {
      var f := Read(st)[0];
      ReadContents(st, f);
      var k :| k in st.posts && st.posts[k].user.Some? && f == Join(st.posts[k], st.posts[k].user.value);
      assert k in LinkedIds(st);
    }
    if LinkedIds(st) != {} {
      assert (forall y :: y !in LinkedIds(st)) ==> LinkedIds(st) == {};
      var k :| k in LinkedIds(st);
      var p := st.posts[k];
      ReadContents(st, Join(p, p.user.value));
    }
  }
}
