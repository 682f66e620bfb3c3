/** Rebuilding the cache from a fresh remote snapshot: capture the like flags,
    batch-delete all posts and users, insert the users and then the posts, and
    re-attach each post's flag by id. A failure is reported only as a log line,
    so the caller sees no error, and the deletes are not undone. */
module CacheReplace {
  import opened Wrappers
  import opened Dto
  import opened Entities
  import opened CacheRead

  /** The step of the delete phase that fails, if any. */
  datatype DeleteFailure = NoDeleteFailure | PostDeleteFails | UserDeleteFails

  /** The storage failures a replace can meet. `snapshotUnreadable` is the fetch
      of the existing posts failing, which the code turns into an empty snapshot. */
  datatype Faults = Faults(snapshotUnreadable: bool, deleteFailure: DeleteFailure)

  /** A replace that meets no storage failure. */
  const Healthy := Faults(false, NoDeleteFailure)

  /** The captured like flags, keyed by post id. */
  function LikedById(st: Store): map<int, bool> {
    map k | k in st.posts :: st.posts[k].isLiked
  }

  /** The id a received user is keyed by. */
  function UserKey(u: UserDTO): int {
    u.id
  }

  /** The id a received post is keyed by. */
  function PostKey(p: PostDTO): int {
    p.id
  }

  /** `i` is the last position of `xs` holding an element with its key. */
  ghost predicate LastWithKey<T>(xs: seq<T>, key: T -> int, i: int)
    requires 0 <= i < |xs|
  {
    forall j | i < j < |xs| :: key(xs[j]) != key(xs[i])
  }

  /** Some element of `xs` has key `k`. */
  ghost predicate HasKey<T>(xs: seq<T>, key: T -> int, k: int) {
    exists i :: 0 <= i < |xs| && key(xs[i]) == k
  }

  /** Inserting the elements of `xs` into an empty dictionary in order, keyed by
      `key`: a later element overwrites an earlier one with the same key. */
  function LastByKey<T>(xs: seq<T>, key: T -> int): map<int, T>
    decreases |xs|
  {
    if xs == [] then map[]
    else LastByKey(xs[..|xs| - 1], key)[key(xs[|xs| - 1]) := xs[|xs| - 1]]
  }

  /** The keys of `LastByKey` are exactly the keys of the elements. */
  lemma {:induction false} LastByKeyKeys<T>(xs: seq<T>, key: T -> int, k: int)
    ensures k in LastByKey(xs, key) <==> HasKey(xs, key, k)
    decreases |xs|
  {
    if xs != [] {
      var init := xs[..|xs| - 1];
      LastByKeyKeys(init, key, k);
      if HasKey(init, key, k) {
        var i :| 0 <= i < |init| && key(init[i]) == k;
        assert key(xs[i]) == k;
      }
      if HasKey(xs, key, k) && key(xs[|xs| - 1]) != k {
        var i :| 0 <= i < |xs| && key(xs[i]) == k;
        assert key(init[i]) == k;
      }
    }
  }

  /** Under each key, `LastByKey` holds the last element with that key. */
  lemma {:induction false} LastByKeyLast<T>(xs: seq<T>, key: T -> int, i: int)
    requires 0 <= i < |xs| && LastWithKey(xs, key, i)
    ensures key(xs[i]) in LastByKey(xs, key) && LastByKey(xs, key)[key(xs[i])] == xs[i]
    decreases |xs|
  {
    if i < |xs| - 1 {
      var init := xs[..|xs| - 1];
      assert init[i] == xs[i];
      assert key(xs[|xs| - 1]) != key(xs[i]);
      LastByKeyLast(init, key, i);
    }
  }

  /** The cached user built from one received user. */
  function UserOf(u: UserDTO): UserEntity {
    UserEntity(u.id, Some(u.name))
  }

  /** The cached post built from one received post, linked through `userMap` and
      with its flag taken from the snapshot, false for an id not in it. */
  function PostOf(p: PostDTO, userMap: map<int, UserEntity>, liked: map<int, bool>): PostEntity {
    PostEntity(
      p.id, p.userId, Some(p.title), Some(p.body),
      if p.id in liked then liked[p.id] else false,
      if p.userId in userMap then Some(userMap[p.userId]) else None)
  }

  /** The user map: the last received user for each id. */
  function BuildUsers(us: seq<UserDTO>): map<int, UserEntity> {
    var last := LastByKey(us, UserKey);
    map k | k in last :: UserOf(last[k])
  }

  /** The post map: for each id, the post built from the last one received with it. */
  function BuildPosts(ps: seq<PostDTO>, userMap: map<int, UserEntity>, liked: map<int, bool>)
    : map<int, PostEntity>
  {
    var last := LastByKey(ps, PostKey);
    map k | k in last :: PostOf(last[k], userMap, liked)
  }

  /** The cache after replacing `st` with the received users and posts. */
  function Replace(st: Store, users: seq<UserDTO>, posts: seq<PostDTO>, faults: Faults): Store {
    var liked := if faults.snapshotUnreadable then map[] else LikedById(st);
    match faults.deleteFailure
    case PostDeleteFails => st
    case UserDeleteFails => Store(st.users, map[])
    case NoDeleteFailure =>
      var userMap := BuildUsers(users);
      Store(userMap, BuildPosts(posts, userMap, liked))
  }

  /** Like preservation: every post left in the cache carries the flag it had
      before when its id was stored before and the snapshot could be read, and
      is unliked otherwise (a new id, or an unreadable snapshot). */
  lemma ReplaceKeepsLikes(st: Store, users: seq<UserDTO>, posts: seq<PostDTO>, faults: Faults)
    ensures var r := Replace(st, users, posts, faults);
      forall k | k in r.posts ::
        && (!faults.snapshotUnreadable && k in st.posts ==> r.posts[k].isLiked == st.posts[k].isLiked)
        && (faults.snapshotUnreadable && faults.deleteFailure == NoDeleteFailure ==> !r.posts[k].isLiked)
        && (k !in st.posts ==> !r.posts[k].isLiked)
  {
    var r := Replace(st, users, posts, faults);
    if faults.deleteFailure == NoDeleteFailure {
      forall k | k in r.posts
        ensures !faults.snapshotUnreadable && k in st.posts ==> r.posts[k].isLiked == st.posts[k].isLiked
        ensures k !in st.posts ==> !r.posts[k].isLiked
      {
        LastByKeyOwnKey(posts, PostKey, k);
      }
    }
  }

  /** The element stored under key `k` by `LastByKey` has key `k`. */
  lemma {:induction false} LastByKeyOwnKey<T>(xs: seq<T>, key: T -> int, k: int)
    requires k in LastByKey(xs, key)
    ensures key(LastByKey(xs, key)[k]) == k
    decreases |xs|
  {
    if xs != [] && key(xs[|xs| - 1]) != k {
      LastByKeyOwnKey(xs[..|xs| - 1], key, k);
    }
  }

  /** Linking: after a replace whose deletes succeed, whether or not the like
      snapshot could be read, the users are exactly the received ones,
      the last duplicate winning; the posts are exactly the received ones, the
      last duplicate winning, with id, user id, title and body copied, and each
      linked to the stored user with its user id, or unlinked when no received
      user has that id. */
  lemma ReplaceLinks(st: Store, users: seq<UserDTO>, posts: seq<PostDTO>, faults: Faults)
    requires faults.deleteFailure == NoDeleteFailure
    ensures var r := Replace(st, users, posts, faults);
      && (forall k :: k in r.users <==> HasKey(users, UserKey, k))
      && (forall i | 0 <= i < |users| && LastWithKey(users, UserKey, i) ::
            users[i].id in r.users && r.users[users[i].id] == UserEntity(users[i].id, Some(users[i].name)))
      && (forall k :: k in r.posts <==> HasKey(posts, PostKey, k))
      && (forall i | 0 <= i < |posts| && LastWithKey(posts, PostKey, i) ::
            && posts[i].id in r.posts
            && var e := r.posts[posts[i].id];
            && e.id == posts[i].id && e.userId == posts[i].userId
            && e.title == Some(posts[i].title) && e.body == Some(posts[i].body)
            && (e.user.Some? <==> HasKey(users, UserKey, posts[i].userId))
            && (e.user.Some? ==> e.user.value == r.users[posts[i].userId]))
  {
    var r := Replace(st, users, posts, faults);
    forall k ensures k in r.users <==> HasKey(users, UserKey, k) {
      LastByKeyKeys(users, UserKey, k);
    }
    forall i | 0 <= i < |users| && LastWithKey(users, UserKey, i)
      ensures users[i].id in r.users && r.users[users[i].id] == UserEntity(users[i].id, Some(users[i].name))
    {
      LastByKeyLast(users, UserKey, i);
    }
    forall k ensures k in r.posts <==> HasKey(posts, PostKey, k) {
      LastByKeyKeys(posts, PostKey, k);
    }
    forall i | 0 <= i < |posts| && LastWithKey(posts, PostKey, i)
      ensures posts[i].id in r.posts
      ensures var e := r.posts[posts[i].id];
        && e.id == posts[i].id && e.userId == posts[i].userId
        && e.title == Some(posts[i].title) && e.body == Some(posts[i].body)
        && (e.user.Some? <==> HasKey(users, UserKey, posts[i].userId))
        && (e.user.Some? ==> e.user.value == r.users[posts[i].userId])
    {
      LastByKeyLast(posts, PostKey, i);
      LastByKeyKeys(users, UserKey, posts[i].userId);
    }
  }

  /** Whatever fails, a replace keeps the cache well formed. */
  lemma ReplaceValid(st: Store, users: seq<UserDTO>, posts: seq<PostDTO>, faults: Faults)
    requires Valid(st)
    ensures Valid(Replace(st, users, posts, faults))
  {
    if faults.deleteFailure == NoDeleteFailure {
      var r := Replace(st, users, posts, faults);
      forall k | k in r.users ensures r.users[k].id == k {
        LastByKeyOwnKey(users, UserKey, k);
      }
      forall k | k in r.posts ensures r.posts[k].id == k {
        LastByKeyOwnKey(posts, PostKey, k);
      }
    }
  }

  /** The replace is not atomic: whenever the cache shows a post and a healthy
      replace would show one too, a replace whose user delete fails leaves a
      cache that shows nothing, neither the old contents nor the new. */
  lemma ReplaceNotAtomic(st: Store, us: seq<UserDTO>, ps: seq<PostDTO>)
    requires Read(st) != []
    requires Read(Replace(st, us, ps, Healthy)) != []
    ensures Read(Replace(st, us, ps, Faults(false, UserDeleteFails))) == []
  {
  }
}
