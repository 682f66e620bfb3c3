/** The values the repository hands to its callers: the joined post view and
    the errors its completion handlers can receive. */
module FeedPosts {

  /** A post joined to its author, as shown in the feed. */
  datatype FeedPost = FeedPost(
    id: int,
    userName: string,
    title: string,
    body: string,
    isLiked: bool,
    userId: int)

  /** A transport or decoding failure reported by the network service; its
      content is opaque to the repository. */
  datatype NetError = NetError(description: string)

  /** What a completion handler can receive as failure: a network error passed
      through unchanged, or one of the two lookup failures of toggling a like. */
  datatype FeedError = Network(cause: NetError) | PostNotFound | UserNotFound

  /** The ids of a list of feed posts, in order. */
  function Ids(fs: seq<FeedPost>): (r: seq<int>)
    ensures |r| == |fs|
    ensures forall i | 0 <= i < |fs| :: r[i] == fs[i].id
  {
    seq(|fs|, i requires 0 <= i < |fs| => fs[i].id)
  }
}
