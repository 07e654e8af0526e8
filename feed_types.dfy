/** The JSON shapes the React client holds: a post as the feed receives it (author
 *  populated as `{ _id, username }`, arrays that an older payload may lack, and the
 *  counters socket events add), a comment with its populated author, and a feed page. */
module FeedTypes {
  import opened Common

  /** A populated user reference `{ _id, username }`. */
  datatype Author = Author(id: Id, username: string)

  datatype FeedComment = FeedComment(user: Author, username: string, text: string, createdAt: int)

  /** `likes` and `comments` may be absent from a payload; `likesCount`, `isLiked` and
   *  `commentsCount` exist only once a socket event has added them. */
  datatype FeedPost = FeedPost(
    id: Id,
    user: Author,
    username: string,
    text: string,
    image: Option<string>,
    likes: Option<seq<Id>>,
    likesUsernames: seq<string>,
    likesCount: Option<nat>,
    isLiked: Option<bool>,
    comments: Option<seq<FeedComment>>,
    commentsCount: Option<nat>,
    createdAt: int)

  /** The body of GET /api/posts. */
  datatype FeedPage = FeedPage(posts: seq<FeedPost>, currentPage: int, totalPages: int, totalPosts: nat)

  /** Whether some post in the list carries the id. */
  predicate HasPost(posts: seq<FeedPost>, id: Id) {
    exists k :: 0 <= k < |posts| && posts[k].id == id
  }

  /** No two posts in the list share an id. */
  predicate UniqueIds(posts: seq<FeedPost>) {
    forall i, j :: 0 <= i < j < |posts| ==> posts[i].id != posts[j].id
  }
}
