/** Loading the feed: optionally serve the cache first, then fetch the users
    and, only if that succeeded, the posts; fall back to the cache when either
    fetch fails, and otherwise rebuild the cache and serve the rebuilt read.
    The completion handler can be called twice, so a load is modelled as the
    sequence of results it emits. The two fetch outcomes are inputs. */
module FeedLoad {
  import opened Wrappers
  import opened Dto
  import opened Entities
  import opened FeedPosts
  import opened CacheRead
  import opened CacheReplace

  /** One value handed to the load's completion handler. */
  type Emission = Result<seq<FeedPost>, FeedError>

  /** What a load produces: the results emitted in order, the cache afterwards,
      and whether the posts fetch was issued at all. */
  datatype LoadRun = LoadRun(emitted: seq<Emission>, store: Store, postsRequested: bool)

  /** The answer after a failed fetch: the cached feed if it shows anything,
      otherwise the fetch's error. */
  function Fallback(st: Store, e: NetError): Emission {
    var local := Read(st);
    if local != [] then Success(local) else Failure(Network(e))
  }

  /** Loads the feed given the outcomes of the users fetch and the posts fetch;
      the posts outcome is consulted only once the users fetch has succeeded. */
  function LoadFeed(
    forceRefresh: bool,
    st: Store,
    users: Result<seq<UserDTO>, NetError>,
    posts: Result<seq<PostDTO>, NetError>,
    faults: Faults)
    : (run: LoadRun)
    ensures 1 <= |run.emitted| <= 2
    ensures run.postsRequested <==> users.Success?
    // A failed fetch leaves the cache alone and never yields an empty success.
    ensures NetworkFailure(users, posts).Some? ==>
      && run.store == st
      && forall i | 0 <= i < |run.emitted| && run.emitted[i].Success? :: run.emitted[i].value != []
    // Both fetches succeeding: the rebuilt cache is served, and a storage
    // failure inside the rebuild never reaches the caller.
    ensures users.Success? && posts.Success? ==>
      && run.store == Replace(st, users.value, posts.value, faults)
      && run.emitted[|run.emitted| - 1] == Success(Read(run.store))
      && forall i | 0 <= i < |run.emitted| :: run.emitted[i].Success?
  {
    var provisional := if !forceRefresh && Read(st) != [] then [Success(Read(st))] else [];
    match users
    case Failure(e) => LoadRun(provisional + [Fallback(st, e)], st, false)
    case Success(us) =>
      match posts
      case Failure(e) => LoadRun(provisional + [Fallback(st, e)], st, true)
      case Success(ps) =>
        var rebuilt := Replace(st, us, ps, faults);
        LoadRun(provisional + [Success(Read(rebuilt))], rebuilt, true)
  }

  /** The last value a load emits, the one the caller is left with. */
  function Last(run: LoadRun): Emission
    requires run.emitted != []
  {
    run.emitted[|run.emitted| - 1]
  }

  /** The error of the fetch that failed, if one did. */
  function NetworkFailure(
    users: Result<seq<UserDTO>, NetError>,
    posts: Result<seq<PostDTO>, NetError>)
    : Option<NetError>
  {
    if users.Failure? then Some(users.error)
    else if posts.Failure? then Some(posts.error)
    else None
  }

  /** Serve-stale-then-revalidate: without a forced refresh and with a cache that
      shows something, the cached feed is emitted first, before any network
      outcome; otherwise only the network-driven result is emitted. */
  lemma LoadFeedProvisional(
    forceRefresh: bool, st: Store,
    users: Result<seq<UserDTO>, NetError>, posts: Result<seq<PostDTO>, NetError>, faults: Faults)
    ensures var run := LoadFeed(forceRefresh, st, users, posts, faults);
      && (!forceRefresh && LinkedIds(st) != {} ==>
            |run.emitted| == 2 && run.emitted[0] == Success(Read(st)) && Read(st) != [])
      && (forceRefresh || LinkedIds(st) == {} ==> |run.emitted| == 1)
  {
    ReadEmpty(st);
  }

  /** A failed users fetch means the posts fetch is never issued: nothing about
      the load depends on the posts outcome or on the storage faults. */
  lemma LoadFeedUsersFailureSkipsPosts(
    forceRefresh: bool, st: Store, e: NetError,
    posts: Result<seq<PostDTO>, NetError>, faults: Faults,
    otherPosts: Result<seq<PostDTO>, NetError>, otherFaults: Faults)
    ensures !LoadFeed(forceRefresh, st, Failure(e), posts, faults).postsRequested
    ensures LoadFeed(forceRefresh, st, Failure(e), posts, faults)
         == LoadFeed(forceRefresh, st, Failure(e), otherPosts, otherFaults)
  {
  }

  /** Fallback policy: when either fetch fails, the cache is left untouched and
      the load ends with the cached feed if the cache shows any post, and with
      that fetch's error otherwise. */
  lemma LoadFeedFallback(
    forceRefresh: bool, st: Store,
    users: Result<seq<UserDTO>, NetError>, posts: Result<seq<PostDTO>, NetError>, faults: Faults)
    requires NetworkFailure(users, posts).Some?
    ensures var run := LoadFeed(forceRefresh, st, users, posts, faults);
      && run.store == st
      && (LinkedIds(st) != {} ==> Last(run) == Success(Read(st)))
      && (LinkedIds(st) == {} ==> run.emitted == [Failure(Network(NetworkFailure(users, posts).value))])
  {
    ReadEmpty(st);
  }

  /** Storage failures during the rebuild, seen by the caller. A failed post
      delete leaves the cache as it was and the load ends by serving it again. A
      failed user delete leaves no posts, so the load ends with an empty success,
      not an error; with a forced refresh that empty success is all it emits,
      even from a cache that showed posts. */
  lemma LoadFeedDeleteFailures(
    forceRefresh: bool, st: Store, us: seq<UserDTO>, ps: seq<PostDTO>, unreadable: bool)
    ensures var run := LoadFeed(forceRefresh, st, Success(us), Success(ps), Faults(unreadable, PostDeleteFails));
      run.store == st && Last(run) == Success(Read(st))
    ensures var run := LoadFeed(forceRefresh, st, Success(us), Success(ps), Faults(unreadable, UserDeleteFails));
      run.store.users == st.users && Last(run) == Success([])
    ensures LoadFeed(true, st, Success(us), Success(ps), Faults(unreadable, UserDeleteFails)).emitted
         == [Success([])]
  {
  }

  /** End to end: after a load whose fetches and rebuild all succeed, every post
      the caller finally sees that was cached before keeps its like flag, and
      every post it had not seen before is unliked. */
  lemma LoadFeedKeepsLikes(
    forceRefresh: bool, st: Store, us: seq<UserDTO>, ps: seq<PostDTO>)
    ensures var run := LoadFeed(forceRefresh, st, Success(us), Success(ps), Healthy);
      forall f | f in Last(run).value ::
        && (f.id in st.posts ==> f.isLiked == st.posts[f.id].isLiked)
        && (f.id !in st.posts ==> !f.isLiked)
  {
    var run := LoadFeed(forceRefresh, st, Success(us), Success(ps), Healthy);
    var r := run.store;
    ReplaceKeepsLikes(st, us, ps, Healthy);
    forall f | f in Last(run).value
      ensures f.id in st.posts ==> f.isLiked == st.posts[f.id].isLiked
      ensures f.id !in st.posts ==> !f.isLiked
    {
      ReadContents(r, f);
      var k :| k in r.posts && r.posts[k].user.Some? && f == Join(r.posts[k], r.posts[k].user.value);
      LastByKeyOwnKey(ps, PostKey, k);
    }
  }
}
