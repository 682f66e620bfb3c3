/** Toggling the like flag of one cached post. The flag is flipped and saved
    before the post's user is looked up, so a post without a user fails with
    "User not found" after its flag has already changed. */
module Likes {
  import opened Wrappers
  import opened Entities
  import opened FeedPosts
  import opened CacheRead

  /** What a toggle produces: the value handed to the completion handler and the cache afterwards. */
  datatype Toggled = Toggled(result: Result<FeedPost, FeedError>, store: Store)

  /** The id the toggle's fetch request actually matches. The request is built
      with the format "id == %d", which reads the 64-bit id as a 32-bit C `int`:
      only its low 32 bits survive, as a signed value. */
  function PredicateId(postId: int): (r: int)
    ensures -0x8000_0000 <= r < 0x8000_0000
    ensures (postId - r) % 0x1_0000_0000 == 0
    ensures -0x8000_0000 <= postId < 0x8000_0000 ==> r == postId
  {
    var r := (postId + 0x8000_0000) % 0x1_0000_0000 - 0x8000_0000;
    assert postId - r == 0x1_0000_0000 * ((postId + 0x8000_0000) / 0x1_0000_0000);
    r
  }

  /** Toggles the like flag of the post the request for `postId` finds, the one
      stored under `PredicateId(postId)`. */
  function ToggleLike(st: Store, postId: int): (t: Toggled)
    ensures var key := PredicateId(postId);
      key !in st.posts ==> t == Toggled(Failure(PostNotFound), st)
    ensures var key := PredicateId(postId);
      key in st.posts ==>
        && t.store.users == st.users
        && t.store.posts.Keys == st.posts.Keys
        && t.store.posts[key] == st.posts[key].(isLiked := !st.posts[key].isLiked)
        && (forall k | k in st.posts && k != key :: t.store.posts[k] == st.posts[k])
    ensures var key := PredicateId(postId);
      key in st.posts && st.posts[key].user.None? ==> t.result == Failure(UserNotFound)
    ensures var key := PredicateId(postId);
      key in st.posts && st.posts[key].user.Some? ==>
        && t.result.Success?
        && t.result.value.id == st.posts[key].id
        && t.result.value.isLiked == !st.posts[key].isLiked
        && t.result.value.userName == st.posts[key].user.value.name.GetOr("")
  {
    var key := PredicateId(postId);
    if key !in st.posts then Toggled(Failure(PostNotFound), st)
    else
      var p := st.posts[key];
      var flipped := p.(isLiked := !p.isLiked);
      var saved := st.(posts := st.posts[key := flipped]);
      match flipped.user
      case None => Toggled(Failure(UserNotFound), saved)
      case Some(u) => Toggled(Success(Join(flipped, u)), saved)
  }

  /** Ids beyond 32 bits are looked up wrongly: toggling post 2^32 flips post 0
      instead, and leaves post 2^32 as it was. */
  lemma ToggleWideIdHitsOtherPost(st: Store)
    requires 0 in st.posts && 0x1_0000_0000 in st.posts
    ensures var t := ToggleLike(st, 0x1_0000_0000);
      && t.store.posts[0].isLiked == !st.posts[0].isLiked
      && t.store.posts[0x1_0000_0000] == st.posts[0x1_0000_0000]
  {
  }

  /** Toggling the same post twice gives back the cache it started from, whatever
      either call reported. */
  lemma ToggleTwice(st: Store, postId: int)
    ensures ToggleLike(ToggleLike(st, postId).store, postId).store == st
  {
  }

  /** A toggle keeps the cache well formed. */
  lemma ToggleValid(st: Store, postId: int)
    requires Valid(st)
    ensures Valid(ToggleLike(st, postId).store)
  {
  }

  /** The post a successful toggle reports is exactly what the next read of the
      cache shows for it. */
  lemma ToggleAgreesWithRead(st: Store, postId: int)
    ensures var t := ToggleLike(st, postId);
      t.result.Success? ==> t.result.value in Read(t.store)
  {
    var t := ToggleLike(st, postId);
    if t.result.Success? {
      ReadContents(t.store, t.result.value);
      assert t.store.posts[PredicateId(postId)].user.Some?;
    }
  }
}
