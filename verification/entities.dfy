/** The persistent cache: user and post records, the post carrying the locally
    owned `isLiked` flag and an optional link to its user. */
module Entities {
  import opened Wrappers

  /** A cached user. The name is optional in the persistent schema. */
  datatype UserEntity = UserEntity(id: int, name: Option<string>)

  /** A cached post. `user` is the to-one relationship; it is absent when no
      user with `userId` was present at the last replace. */
  datatype PostEntity = PostEntity(
    id: int,
    userId: int,
    title: Option<string>,
    body: Option<string>,
    isLiked: bool,
    user: Option<UserEntity>)

  /** The whole cache: users and posts, each keyed by its id. */
  datatype Store = Store(users: map<int, UserEntity>, posts: map<int, PostEntity>)

  /** Every record sits under its own id, and every linked user is the stored
      user with that id. */
  ghost predicate Valid(st: Store) {
    && (forall k | k in st.users :: st.users[k].id == k)
    && (forall k | k in st.posts :: st.posts[k].id == k)
    && (forall k | k in st.posts && st.posts[k].user.Some? ::
          st.posts[k].user.value.id in st.users
          && st.users[st.posts[k].user.value.id] == st.posts[k].user.value)
  }

  /** The ids of the posts that have a linked user, i.e. the posts a read can show. */
  function LinkedIds(st: Store): set<int> {
    set k | k in st.posts && st.posts[k].user.Some?
  }
}
