/** One post card of the feed: whether the current user likes or owns the post, the
 *  counters it shows, and the post the card hands back to the feed after a like or a
 *  comment. The card's own state is the comment draft and the submitting flag. Its time
 *  labels are the ones RelativeTime.Label computes. */
module PostCardView {
  import opened Common
  import opened FeedTypes
  import PostModel
  import Store
  import PostRoutes

  /** `post.likes?.includes(currentUser._id)`: absent likes read as not liked. */
  predicate IsLiked(post: FeedPost, me: Id)
    ensures IsLiked(post, me) ==> LikesShown(post) > 0
  {
    post.likes.Some? && me in post.likes.value
  }

  /** `post.user?._id === currentUser?._id`. */
  predicate IsOwnPost(post: FeedPost, me: Id) {
    post.user.id == me
  }

  /** The delete menu is offered on the user's own posts only. */
  predicate ShowsDeleteMenu(post: FeedPost, me: Id) {
    IsOwnPost(post, me)
  }

  /** `post.likes?.length || 0`. */
  function LikesShown(post: FeedPost): (n: nat)
    ensures post.likes.None? ==> n == 0
    ensures post.likes.Some? ==> n == |post.likes.value|
  {
    match post.likes
    case None => 0
    case Some(ls) => |ls|
  }

  /** `post.comments?.length || 0`. */
  function CommentsShown(post: FeedPost): (n: nat)
    ensures post.comments.None? ==> n == 0
    ensures post.comments.Some? ==> n == |post.comments.value|
  {
    match post.comments
    case None => 0
    case Some(cs) => |cs|
  }

  /** `handleLike`: the post with the server's `likes` and `likesUsernames`; every other
   *  field, the socket-added `likesCount` and `isLiked` included, is kept. */
  function AfterLike(post: FeedPost, likes: seq<Id>, likesUsernames: seq<string>): (r: FeedPost)
    ensures r.likes == Some(likes) && r.likesUsernames == likesUsernames
    ensures r.id == post.id && r.user == post.user && r.username == post.username && r.text == post.text
    ensures r.image == post.image && r.likesCount == post.likesCount && r.isLiked == post.isLiked
    ensures r.comments == post.comments && r.commentsCount == post.commentsCount && r.createdAt == post.createdAt
  {
    post.(likes := Some(likes), likesUsernames := likesUsernames)
  }

  /** After the server toggles the current user's like, the card shows the opposite of
   *  what the stored post had: the heart follows the server's `likes`. */
  lemma LikeButtonFlips(post: FeedPost, p: PostModel.Post, actor: Store.Actor)
    requires NoDup(p.likes)
    ensures var t := PostRoutes.Toggled(p, actor);
            IsLiked(AfterLike(post, t.likes, t.likesUsernames), actor.id) <==> actor.id !in p.likes
  {
  }

  /** A like response changes neither ownership nor the comment counter. */
  lemma {:induction false} AfterLikeKeepsRest(post: FeedPost, likes: seq<Id>, names: seq<string>, me: Id)
    ensures IsOwnPost(AfterLike(post, likes, names), me) <==> IsOwnPost(post, me)
    ensures CommentsShown(AfterLike(post, likes, names)) == CommentsShown(post)
    ensures LikesShown(AfterLike(post, likes, names)) == |likes|
    ensures IsLiked(AfterLike(post, likes, names), me) <==> me in likes
  {
  }

  /** `handleComment`: the post with the server's comments; `commentsCount` keeps its value. */
  function AfterComment(post: FeedPost, comments: seq<FeedComment>): (r: FeedPost)
    ensures r.comments == Some(comments)
    ensures r.id == post.id && r.user == post.user && r.username == post.username && r.text == post.text
    ensures r.image == post.image && r.likes == post.likes && r.likesUsernames == post.likesUsernames
    ensures r.likesCount == post.likesCount && r.isLiked == post.isLiked
    ensures r.commentsCount == post.commentsCount && r.createdAt == post.createdAt
  {
    post.(comments := Some(comments))
  }

  /** The send button is disabled while the draft is blank or a comment is being sent. */
  predicate CommentSendDisabled(draft: string, submitting: bool) {
    Trim(draft) == "" || submitting
  }

  /** The send button is enabled exactly when the draft survives the server's trimming
   *  as a non-empty comment (POST /api/posts/:id/comment answers 400 to a blank one),
   *  and it is never enabled while a comment is in flight. */
  lemma {:induction false} SendEnabledIffServerAcceptsText(draft: string)
    ensures !CommentSendDisabled(draft, false) <==> PostRoutes.SanitizedText(Some(draft)) != ""
    ensures CommentSendDisabled(draft, true)
  {
  }

  /** The delete menu is offered exactly where the server carries the deletion out: the
   *  card's author is the stored post's `user`, and DELETE /api/posts/:id answers 403 to
   *  any other requester. A like or a comment response does not move the menu. */
  lemma {:induction false} DeleteMenuIffAuthor(post: FeedPost, p: PostModel.Post, me: Id,
                                               likes: seq<Id>, names: seq<string>, comments: seq<FeedComment>)
    requires post.id == p.id && post.user.id == p.user
    ensures ShowsDeleteMenu(post, me) <==> p.user == me
    ensures ShowsDeleteMenu(AfterLike(post, likes, names), me) <==> ShowsDeleteMenu(post, me)
    ensures ShowsDeleteMenu(AfterComment(post, comments), me) <==> ShowsDeleteMenu(post, me)
  {
  }

  /** The card's own state. */
  class PostCard {
    var commentText: string
    var submittingComment: bool
    var showComments: bool

    constructor ()
      ensures commentText == "" && !submittingComment && !showComments
    {
      commentText, submittingComment, showComments := "", false, false;
    }

    method TypeComment(text: string)
      modifies this
      ensures commentText == text
      ensures submittingComment == old(submittingComment) && showComments == old(showComments)
    {
      commentText := text;
    }

    method ToggleComments()
      modifies this
      ensures showComments == !old(showComments)
      ensures commentText == old(commentText) && submittingComment == old(submittingComment)
    {
      showComments := !showComments;
    }

    /** `handleComment`: a blank draft sends nothing; otherwise the draft, untrimmed, is
     *  sent and `respond` is the server's answer (None: the request failed). On success
     *  the updated post goes to the feed and the draft is cleared; either way the
     *  submitting flag ends false. */
    method HandleComment(post: FeedPost, respond: string -> Option<seq<FeedComment>>)
      returns (sent: Option<string>, updated: Option<FeedPost>)
      modifies this
      ensures Trim(old(commentText)) == "" ==>
                sent == None && updated == None && commentText == old(commentText)
                && submittingComment == old(submittingComment)
      ensures Trim(old(commentText)) != "" ==>
                && sent == Some(old(commentText))
                && !submittingComment
                && (respond(old(commentText)).Some? ==>
                      updated == Some(AfterComment(post, respond(old(commentText)).value)) && commentText == "")
                && (respond(old(commentText)).None? ==> updated == None && commentText == old(commentText))
      ensures showComments == old(showComments)
      ensures sent.Some? <==> !CommentSendDisabled(old(commentText), false)
      ensures sent.Some? ==> PostRoutes.SanitizedText(sent) != ""
    {
      if Trim(commentText) == "" {
        return None, None;
      }
      submittingComment := true;
      sent := Some(commentText);
      var response := respond(commentText);
      if response.Some? {
        updated := Some(AfterComment(post, response.value));
        commentText := "";
      } else {
        updated := None;
      }
      submittingComment := false;
    }
  }
}
