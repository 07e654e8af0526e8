/** The feed page. The socket handlers are pure updates of the post list (prepend if
 *  absent, filter by id, replace fields of the post with a given id, rename an author);
 *  the page component keeps `posts`, `page`, `hasMore`, `loading`, `error`, `tabValue`
 *  and `unreadCount` as state that its handlers set. */
module Social {
  import opened Common
  import opened FeedTypes
  import PostModel
  import PostRoutes
  import PostCardView

  const MsgLoadFailed := "Failed to load posts"
  const FeedPageSize := 20

  /** The payload of `postLiked`. */
  datatype LikeUpdate = LikeUpdate(postId: Id, likes: seq<Id>, likesCount: nat, likesUsernames: seq<string>, isLiked: bool)

  /** The payload of `postCommented`. */
  datatype CommentUpdate = CommentUpdate(postId: Id, comments: seq<FeedComment>, commentsCount: nat)

  /** The socket events the page listens to that change the post list. */
  datatype SocketEvent =
    | PostCreated(post: FeedPost)
    | PostDeleted(postId: Id)
    | PostLiked(like: LikeUpdate)
    | PostCommented(comment: CommentUpdate)
    | UsernameChanged(userId: Id, oldUsername: string, newUsername: string)

  // ---------------------------------------------------------------- postCreated

  /** `postCreated`: prepend the post unless one with the same id is already listed. */
  function OnPostCreated(posts: seq<FeedPost>, p: FeedPost): (r: seq<FeedPost>)
    ensures r == posts || r == [p] + posts
    ensures r == posts <==> HasPost(posts, p.id)
    ensures HasPost(r, p.id)
    ensures UniqueIds(posts) ==> UniqueIds(r)
  {
    if HasPost(posts, p.id) then posts
    else
      assert r0: ([p] + posts)[0] == p;
      [p] + posts
  }

  /** Receiving the same `postCreated` twice has the effect of receiving it once. */
  lemma {:induction false} OnPostCreatedIdempotent(posts: seq<FeedPost>, p: FeedPost)
    ensures OnPostCreated(OnPostCreated(posts, p), p) == OnPostCreated(posts, p)
  {
    var r := OnPostCreated(posts, p);
    assert HasPost(r, p.id);
  }

  // ---------------------------------------------------------------- postDeleted, handlePostDelete

  function IdIsNot(id: Id): FeedPost -> bool {
    (q: FeedPost) => q.id != id
  }

  /** `posts.filter(post => post._id !== postId)`. */
  function RemovePost(posts: seq<FeedPost>, id: Id): (r: seq<FeedPost>)
    ensures |r| <= |posts|
    ensures forall q :: q in r <==> q in posts && q.id != id
    ensures !HasPost(r, id)
  {
    var r := Filter(posts, IdIsNot(id));
    assert forall k :: 0 <= k < |r| ==> r[k] in r;
    r
  }

  /** Removal keeps the relative order of the other posts: it distributes over any split
   *  of the list. */
  lemma {:induction false} RemovePostKeepsOrder(a: seq<FeedPost>, b: seq<FeedPost>, id: Id)
    ensures RemovePost(a + b, id) == RemovePost(a, id) + RemovePost(b, id)
  {
    FilterAppend(a, b, IdIsNot(id));
  }

  /** Removing an id that is not listed changes nothing; so removing twice is removing once. */
  lemma {:induction false} RemovePostIdempotent(posts: seq<FeedPost>, id: Id)
    ensures !HasPost(posts, id) ==> RemovePost(posts, id) == posts
    ensures RemovePost(RemovePost(posts, id), id) == RemovePost(posts, id)
  {
    forall s: seq<FeedPost> | !HasPost(s, id) ensures RemovePost(s, id) == s {
      forall x | x in s ensures IdIsNot(id)(x) {
        var k :| 0 <= k < |s| && s[k] == x;
      }
      FilterAllPass(s, IdIsNot(id));
    }
  }

  // ---------------------------------------------------------------- postLiked

  /** Two feed posts that differ at most in the like fields. */
  predicate SameBesideLikes(a: FeedPost, b: FeedPost) {
    && a.id == b.id && a.user == b.user && a.username == b.username && a.text == b.text
    && a.image == b.image && a.comments == b.comments && a.commentsCount == b.commentsCount
    && a.createdAt == b.createdAt
  }

  function WithLikes(p: FeedPost, e: LikeUpdate): FeedPost {
    p.(likes := Some(e.likes), likesCount := Some(e.likesCount), likesUsernames := e.likesUsernames, isLiked := Some(e.isLiked))
  }

  /** `postLiked`: the post with that id takes the four like fields of the payload. */
  function OnPostLiked(posts: seq<FeedPost>, e: LikeUpdate): (r: seq<FeedPost>)
    ensures |r| == |posts|
    ensures forall k :: 0 <= k < |r| && posts[k].id != e.postId ==> r[k] == posts[k]
    ensures forall k :: 0 <= k < |r| && posts[k].id == e.postId ==>
              && SameBesideLikes(r[k], posts[k])
              && r[k].likes == Some(e.likes) && r[k].likesCount == Some(e.likesCount)
              && r[k].likesUsernames == e.likesUsernames && r[k].isLiked == Some(e.isLiked)
  {
    seq(|posts|, k requires 0 <= k < |posts| => if posts[k].id == e.postId then WithLikes(posts[k], e) else posts[k])
  }

  /** Of two `postLiked` events for the same post, the later one decides. */
  lemma {:induction false} LatestLikeWins(posts: seq<FeedPost>, e1: LikeUpdate, e2: LikeUpdate)
    requires e1.postId == e2.postId
    ensures OnPostLiked(OnPostLiked(posts, e1), e2) == OnPostLiked(posts, e2)
  {
    var a := OnPostLiked(OnPostLiked(posts, e1), e2);
    var b := OnPostLiked(posts, e2);
    forall k | 0 <= k < |posts| ensures a[k] == b[k] {
    }
  }

  // ---------------------------------------------------------------- postCommented

  /** Two feed posts that differ at most in the comment fields. */
  predicate SameBesideComments(a: FeedPost, b: FeedPost) {
    && a.id == b.id && a.user == b.user && a.username == b.username && a.text == b.text
    && a.image == b.image && a.likes == b.likes && a.likesCount == b.likesCount
    && a.likesUsernames == b.likesUsernames && a.isLiked == b.isLiked && a.createdAt == b.createdAt
  }

  function WithComments(p: FeedPost, e: CommentUpdate): FeedPost {
    p.(comments := Some(e.comments), commentsCount := Some(e.commentsCount))
  }

  /** `postCommented`: the post with that id takes the comments and their count. */
  function OnPostCommented(posts: seq<FeedPost>, e: CommentUpdate): (r: seq<FeedPost>)
    ensures |r| == |posts|
    ensures forall k :: 0 <= k < |r| && posts[k].id != e.postId ==> r[k] == posts[k]
    ensures forall k :: 0 <= k < |r| && posts[k].id == e.postId ==>
              SameBesideComments(r[k], posts[k]) && r[k].comments == Some(e.comments) && r[k].commentsCount == Some(e.commentsCount)
  {
    seq(|posts|, k requires 0 <= k < |posts| => if posts[k].id == e.postId then WithComments(posts[k], e) else posts[k])
  }

  /** Of two `postCommented` events for the same post, the later one decides. */
  lemma {:induction false} LatestCommentsWin(posts: seq<FeedPost>, e1: CommentUpdate, e2: CommentUpdate)
    requires e1.postId == e2.postId
    ensures OnPostCommented(OnPostCommented(posts, e1), e2) == OnPostCommented(posts, e2)
  {
    var a := OnPostCommented(OnPostCommented(posts, e1), e2);
    var b := OnPostCommented(posts, e2);
    forall k | 0 <= k < |posts| ensures a[k] == b[k] {
    }
  }

  // ---------------------------------------------------------------- usernameChanged

  function RenamedFeedComment(c: FeedComment, uid: Id, name: string): FeedComment {
    if c.user.id == uid then c.(username := name, user := c.user.(username := name)) else c
  }

  /** The post's own name (and its author object) when the author matches; its comments
   *  are rewritten only when the array is present and non-empty. */
  function RenamedFeedPost(p: FeedPost, uid: Id, name: string): FeedPost {
    var q := if p.user.id == uid then p.(username := name, user := p.user.(username := name)) else p;
    if p.comments.Some? && |p.comments.value| > 0 then
      q.(comments := Some(seq(|p.comments.value|, j requires 0 <= j < |p.comments.value| =>
                                RenamedFeedComment(p.comments.value[j], uid, name))))
    else q
  }

  /** Two feed comments that differ at most in the author's name. */
  predicate SameBesideCommenterName(a: FeedComment, b: FeedComment) {
    a.user.id == b.user.id && a.text == b.text && a.createdAt == b.createdAt
  }

  /** `usernameChanged`: every post and every comment by the user shows the new name; the
   *  list keeps its length and order and no other author's name changes. */
  function OnUsernameChanged(posts: seq<FeedPost>, uid: Id, name: string): (r: seq<FeedPost>)
    ensures |r| == |posts|
    ensures forall k :: 0 <= k < |r| ==>
              && r[k].id == posts[k].id && r[k].user.id == posts[k].user.id && r[k].text == posts[k].text
              && r[k].image == posts[k].image && r[k].likes == posts[k].likes
              && r[k].likesUsernames == posts[k].likesUsernames && r[k].likesCount == posts[k].likesCount
              && r[k].isLiked == posts[k].isLiked && r[k].commentsCount == posts[k].commentsCount
              && r[k].createdAt == posts[k].createdAt
              && r[k].username == (if posts[k].user.id == uid then name else posts[k].username)
              && r[k].user.username == (if posts[k].user.id == uid then name else posts[k].user.username)
              && r[k].comments.Some? == posts[k].comments.Some?
    ensures forall k :: 0 <= k < |r| && posts[k].comments.Some? ==>
              && |r[k].comments.value| == |posts[k].comments.value|
              && forall j :: 0 <= j < |r[k].comments.value| ==>
                   && SameBesideCommenterName(r[k].comments.value[j], posts[k].comments.value[j])
                   && r[k].comments.value[j].username ==
                        (if posts[k].comments.value[j].user.id == uid then name else posts[k].comments.value[j].username)
                   && r[k].comments.value[j].user.username ==
                        (if posts[k].comments.value[j].user.id == uid then name else posts[k].comments.value[j].user.username)
  {
    seq(|posts|, k requires 0 <= k < |posts| => RenamedFeedPost(posts[k], uid, name))
  }

  /** Applying the same rename twice is applying it once. */
  lemma {:induction false} OnUsernameChangedIdempotent(posts: seq<FeedPost>, uid: Id, name: string)
    ensures OnUsernameChanged(OnUsernameChanged(posts, uid, name), uid, name) == OnUsernameChanged(posts, uid, name)
  {
    var r := OnUsernameChanged(posts, uid, name);
    var rr := OnUsernameChanged(r, uid, name);
    forall k | 0 <= k < |posts| ensures rr[k] == r[k] {
      if posts[k].comments.Some? {
        var c := r[k].comments.value;
        assert rr[k].comments.value == c;
      }
    }
  }

  // ---------------------------------------------------------------- the other list updates

  /** `handlePostCreated`: prepend, with no duplicate check. */
  function PrependPost(posts: seq<FeedPost>, p: FeedPost): (r: seq<FeedPost>)
    ensures |r| == |posts| + 1 && r[0] == p && r[1..] == posts
  {
    [p] + posts
  }

  /** A `postCreated` echo arriving after the local prepend is absorbed by the duplicate check. */
  lemma {:induction false} EchoAfterLocalPrependIgnored(posts: seq<FeedPost>, p: FeedPost)
    ensures OnPostCreated(PrependPost(posts, p), p) == PrependPost(posts, p)
  {
    assert PrependPost(posts, p)[0] == p;
  }

  /** `handlePostUpdate`: the post with the updated post's id is replaced by it. */
  function ReplacePost(posts: seq<FeedPost>, updated: FeedPost): (r: seq<FeedPost>)
    ensures |r| == |posts|
    ensures forall k :: 0 <= k < |r| ==> r[k].id == posts[k].id
    ensures forall k :: 0 <= k < |r| && posts[k].id != updated.id ==> r[k] == posts[k]
    ensures HasPost(posts, updated.id) <==> updated in r
    ensures UniqueIds(posts) ==> UniqueIds(r)
  {
    var r := seq(|posts|, k requires 0 <= k < |posts| => if posts[k].id == updated.id then updated else posts[k]);
    assert updated in r ==> HasPost(posts, updated.id) by {
      if updated in r {
        var k :| 0 <= k < |r| && r[k] == updated;
      }
    }
    r
  }

  /** `fetchPosts`: page 1 replaces the list, any other page is appended. */
  function MergePage(posts: seq<FeedPost>, pageNum: int, fetched: seq<FeedPost>): (r: seq<FeedPost>)
    ensures pageNum == 1 ==> r == fetched
    ensures pageNum != 1 ==> |r| == |posts| + |fetched| && r[..|posts|] == posts && r[|posts|..] == fetched
  {
    if pageNum == 1 then fetched else posts + fetched
  }

  /** `hasMore` after a fetch. */
  predicate MorePages(page: FeedPage) {
    page.currentPage < page.totalPages
  }

  function VisibleTo(tab: int, me: Id): FeedPost -> bool {
    (q: FeedPost) => tab == 0 || q.user.id == me
  }

  /** The list the current tab shows: tab 0 every post, any other tab the user's own. */
  function Visible(posts: seq<FeedPost>, tab: int, me: Id): (r: seq<FeedPost>)
    ensures tab == 0 ==> r == posts
    ensures tab != 0 ==> forall q :: q in r <==> q in posts && q.user.id == me
  {
    if tab == 0 then FilterAllPass(posts, VisibleTo(tab, me)); Filter(posts, VisibleTo(tab, me))
    else Filter(posts, VisibleTo(tab, me))
  }

  /** The own-posts tab keeps the feed's order: it distributes over any split of the list. */
  lemma {:induction false} VisibleKeepsOrder(a: seq<FeedPost>, b: seq<FeedPost>, tab: int, me: Id)
    ensures Visible(a + b, tab, me) == Visible(a, tab, me) + Visible(b, tab, me)
  {
    FilterAppend(a, b, VisibleTo(tab, me));
  }

  /** `hasMore` is exact against GET /api/posts: for a page fetched with a positive
   *  limit, the next page holds posts exactly when the fetched page reported more pages. */
  lemma {:induction false} MorePagesIffNextPageNonEmpty(server: seq<PostModel.Post>, pageNum: int, limit: int, fetched: FeedPage)
    requires pageNum >= 1 && limit > 0
    requires fetched.currentPage == pageNum && fetched.totalPages == PostRoutes.CeilDiv(|server|, limit)
    ensures var r := PostRoutes.ListPosts(server, Some(pageNum), Some(limit));
            r.Ok? && r.body.currentPage == fetched.currentPage && r.body.totalPages == fetched.totalPages
    ensures var next := PostRoutes.ListPosts(server, Some(pageNum + 1), Some(limit));
            next.Ok? && (MorePages(fetched) <==> next.body.posts != [])
  {
    PostRoutes.PageNonEmptyIffWithinTotal(server, pageNum + 1, limit);
  }

  /** The list after a socket event. */
  function Receive(posts: seq<FeedPost>, e: SocketEvent): seq<FeedPost> {
    match e
    case PostCreated(p) => OnPostCreated(posts, p)
    case PostDeleted(id) => RemovePost(posts, id)
    case PostLiked(l) => OnPostLiked(posts, l)
    case PostCommented(c) => OnPostCommented(posts, c)
    case UsernameChanged(uid, _, name) => OnUsernameChanged(posts, uid, name)
  }

  /** Socket events never introduce a second post with an id already listed. */
  lemma ReceiveKeepsIdsUnique(posts: seq<FeedPost>, e: SocketEvent)
    requires UniqueIds(posts)
    ensures UniqueIds(Receive(posts, e))
  {
    match e
    case PostCreated(p) =>
    case PostDeleted(id) =>
      var r := RemovePost(posts, id);
      forall i, j | 0 <= i < j < |r| ensures r[i].id != r[j].id {
        RemoveKeepsUnique(posts, id, i, j);
      }
    case PostLiked(l) =>
    case PostCommented(c) =>
    case UsernameChanged(uid, _, name) =>
  }

  lemma RemoveKeepsUnique(posts: seq<FeedPost>, id: Id, i: nat, j: nat)
    requires UniqueIds(posts)
    requires i < j < |RemovePost(posts, id)|
    ensures RemovePost(posts, id)[i].id != RemovePost(posts, id)[j].id
  {
    var m := FilterPositions(posts, IdIsNot(id));
  }

  // ---------------------------------------------------------------- the page component

  class SocialPage {
    var posts: seq<FeedPost>
    var page: int
    var hasMore: bool
    var loading: bool
    var error: string
    var tab: int
    var unreadCount: int
    const me: Author

    /** The initial state: no posts, page 1, loading. */
    constructor (me: Author)
      ensures this.me == me && posts == [] && page == 1 && hasMore && loading && error == ""
      ensures tab == 0 && unreadCount == 0
    {
      this.me := me;
      posts, page, hasMore, loading, error, tab, unreadCount := [], 1, true, true, "", 0, 0;
    }

    /** `fetchPosts(pageNum)` with the response of GET /api/posts (None: the request failed). */
    method FetchPosts(pageNum: int, response: Option<FeedPage>)
      modifies this
      ensures response.Some? ==>
                posts == MergePage(old(posts), pageNum, response.value.posts) && hasMore == MorePages(response.value) && error == ""
      ensures response.Some? ==> (ShowsLoadMore() <==> MorePages(response.value) && posts != [])
      ensures response.None? ==> posts == old(posts) && hasMore == old(hasMore) && error == MsgLoadFailed
      ensures !loading
      ensures page == old(page) && tab == old(tab) && unreadCount == old(unreadCount)
    {
      loading := true;
      if response.Some? {
        posts := MergePage(posts, pageNum, response.value.posts);
        hasMore := MorePages(response.value);
        error := "";
      } else {
        error := MsgLoadFailed;
      }
      loading := false;
    }

    /** `handleLoadMore`: the next page is fetched and appended. */
    method LoadMore(response: Option<FeedPage>)
      modifies this
      ensures page == old(page) + 1
      ensures response.Some? ==>
                posts == MergePage(old(posts), old(page) + 1, response.value.posts) && hasMore == MorePages(response.value)
      ensures response.None? ==> posts == old(posts) && error == MsgLoadFailed
      ensures !loading && tab == old(tab) && unreadCount == old(unreadCount)
    {
      var nextPage := page + 1;
      page := nextPage;
      FetchPosts(nextPage, response);
    }

    /** A socket event updates the list through the matching reducer. */
    method OnSocket(e: SocketEvent)
      modifies this
      ensures posts == Receive(old(posts), e)
      ensures page == old(page) && hasMore == old(hasMore) && loading == old(loading) && error == old(error)
      ensures tab == old(tab) && unreadCount == old(unreadCount)
    {
      posts := Receive(posts, e);
    }

    /** `fetchUnreadCount` (on mount, on `newNotification` and by polling): a failed
     *  request leaves the badge as it was. */
    method FetchUnreadCount(count: Option<int>)
      modifies this
      ensures unreadCount == if count.Some? then count.value else old(unreadCount)
      ensures posts == old(posts) && page == old(page) && hasMore == old(hasMore)
      ensures loading == old(loading) && error == old(error) && tab == old(tab)
    {
      if count.Some? {
        unreadCount := count.value;
      }
    }

    method HandlePostCreated(p: FeedPost)
      modifies this
      ensures posts == PrependPost(old(posts), p)
      ensures page == old(page) && hasMore == old(hasMore) && loading == old(loading) && error == old(error)
      ensures tab == old(tab) && unreadCount == old(unreadCount)
      ensures ShowsCreatePost() ==> Shown() == [p] + old(Shown())
      ensures p.user.id == me.id ==> p in Shown()
    {
      posts := PrependPost(posts, p);
    }

    method HandlePostUpdate(updated: FeedPost)
      modifies this
      ensures posts == ReplacePost(old(posts), updated)
      ensures page == old(page) && hasMore == old(hasMore) && loading == old(loading) && error == old(error)
      ensures tab == old(tab) && unreadCount == old(unreadCount)
    {
      posts := ReplacePost(posts, updated);
    }

    method HandlePostDelete(postId: Id)
      modifies this
      ensures posts == RemovePost(old(posts), postId)
      ensures page == old(page) && hasMore == old(hasMore) && loading == old(loading) && error == old(error)
      ensures tab == old(tab) && unreadCount == old(unreadCount)
    {
      posts := RemovePost(posts, postId);
    }

    method SelectTab(t: int)
      modifies this
      ensures tab == t
      ensures posts == old(posts) && page == old(page) && hasMore == old(hasMore) && loading == old(loading)
      ensures error == old(error) && unreadCount == old(unreadCount)
    {
      tab := t;
    }

    /** The posts rendered as cards: on tab 0 the whole feed, on any other tab exactly
     *  the listed posts whose card offers the delete menu, the user's own. */
    function Shown(): (r: seq<FeedPost>)
      reads this
      ensures tab == 0 ==> r == posts
      ensures tab != 0 ==> forall q :: q in r <==> q in posts && PostCardView.ShowsDeleteMenu(q, me.id)
    {
      Visible(posts, tab, me.id)
    }

    /** The create-post form is shown on tab 0 only, where every listed post is shown. */
    predicate ShowsCreatePost()
      reads this
      ensures ShowsCreatePost() ==> Shown() == posts
    {
      tab == 0
    }

    /** The "Load More" button is shown when more pages exist and the list is not empty. */
    predicate ShowsLoadMore()
      reads this
    {
      hasMore && |posts| > 0
    }
  }
}
