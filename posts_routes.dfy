/** The feed routes: create a post, list a page of the feed, toggle a like, add a comment
 *  and delete a post. Each handler fetches the document, changes it step by step, saves
 *  it, creates or deletes notifications and appends its socket events to the outbox in
 *  the order the route emits them. */
module PostRoutes {
  import opened Common
  import opened PostModel
  import opened Store

  const MsgNeedContent := "Please provide either text or an image"
  const MsgCreateFailed := "Server error while creating post"
  const MsgFetchFailed := "Server error while fetching posts"
  const MsgPostNotFound := "Post not found"
  const MsgCommentRequired := "Comment text is required"
  const MsgCommentFailed := "Server error while adding comment"
  const MsgNotAuthorized := "Not authorized to delete this post"
  const MsgDeleted := "Post deleted successfully"
  const DefaultLimit := 20
  const CommentExcerptLength := 100

  // ---------------------------------------------------------------- create

  /** The document handed to `Post.create`: the requester as author, `text || ''`, the
   *  uploaded image path or null, no likes and no comments. */
  function Draft(id: Id, actor: Actor, text: Option<string>, image: Option<string>, now: int): Post {
    Post(id, actor.id, actor.username, if Truthy(text) then text.value else "", image, [], [], [], now)
  }

  /** Appending a freshly allocated, valid post without likers keeps the store invariants. */
  lemma AppendFreshPost(users: seq<User>, posts: seq<Post>, ns: seq<Notification>, next: Id, p: Post,
                        posts': seq<Post>, next': Id)
    requires StoreInvariant(users, posts, ns, next)
    requires p.id == next && ValidPost(p) && p.likes == [] && p.likesUsernames == []
    requires posts' == posts + [p] && next' == next + 1
    ensures StoreInvariant(users, posts', ns, next')
  {
    AppendFreshPostWellFormed(posts, next, p);
    AppendFreshPostMirrored(posts, ns, next, p);
    AllocatorAdvance(users, ns, next);
  }

  lemma AppendFreshPostWellFormed(posts: seq<Post>, next: Id, p: Post)
    requires PostsWellFormed(posts, next)
    requires p.id == next && ValidPost(p) && p.likes == [] && p.likesUsernames == []
    ensures PostsWellFormed(posts + [p], next + 1)
  {
    AppendFreshIdDistinct(posts, next, p);
    forall q | q in posts + [p] ensures StoredPost(q, next + 1) {
      if q != p {
        assert q in posts;
      }
    }
  }

  lemma AppendFreshIdDistinct(posts: seq<Post>, next: Id, p: Post)
    requires forall q :: q in posts ==> q.id < next
    requires forall i, j :: 0 <= i < j < |posts| ==> posts[i].id != posts[j].id
    requires p.id == next
    ensures forall i, j :: 0 <= i < j < |posts + [p]| ==> (posts + [p])[i].id != (posts + [p])[j].id
  {
    var posts' := posts + [p];
    forall i, j | 0 <= i < j < |posts'| ensures posts'[i].id != posts'[j].id {
      if j == |posts| {
        assert posts'[i] == posts[i] && posts[i] in posts;
      }
    }
  }

  lemma AppendFreshPostMirrored(posts: seq<Post>, ns: seq<Notification>, next: Id, p: Post)
    requires LikesMirrored(posts, ns) && NotesWellFormed(ns, next)
    requires p.id == next && p.likes == []
    ensures LikesMirrored(posts + [p], ns)
  {
    forall q | q in posts + [p] ensures MirrorsLikes(q, ns) {
      if q != p {
        assert q in posts;
      } else {
        forall u: Id | u != p.user ensures CountLikeNotes(ns, p.user, u, p.id) == 0 {
          CountLikeNotesFresh(ns, next, p.user, u);
        }
      }
    }
  }

  /** POST /api/posts. */
  method CreatePost(db: Db, actor: Actor, text: Option<string>, image: Option<string>, now: int)
    returns (r: Reply<Post>)
    requires db.Valid()
    modifies db
    ensures db.Valid()
    ensures !Truthy(text) && !Truthy(image) ==> r == Err(400, MsgNeedContent) && unchanged(db)
    ensures (Truthy(text) || Truthy(image)) && Validate(Draft(old(db.nextId), actor, text, image, now)).Rejected? ==>
              r == Err(500, MsgCreateFailed) && unchanged(db)
    ensures (Truthy(text) || Truthy(image)) && Validate(Draft(old(db.nextId), actor, text, image, now)).Accepted? ==>
              var p := Validate(Draft(old(db.nextId), actor, text, image, now)).post;
              && r == Ok(201, p)
              && db.posts == old(db.posts) + [p]
              && db.outbox == old(db.outbox) + [PostCreated(p)]
              && db.nextId == old(db.nextId) + 1
              && db.users == old(db.users) && db.notifications == old(db.notifications)
  {
    if !Truthy(text) && !Truthy(image) {
      return Err(400, MsgNeedContent);
    }
    var v := Validate(Draft(db.nextId, actor, text, image, now));
    if v.Rejected? {
      return Err(500, MsgCreateFailed);
    }
    StorePost(db, v.post);
    r := Ok(201, v.post);
  }

  /** The write half of POST /api/posts: the accepted document is inserted under the next
   *  id and `postCreated` is emitted. */
  method StorePost(db: Db, post: Post)
    requires db.Valid()
    requires post.id == db.nextId && ValidPost(post) && post.likes == [] && post.likesUsernames == []
    modifies db
    ensures db.Valid()
    ensures db.posts == old(db.posts) + [post]
    ensures db.outbox == old(db.outbox) + [PostCreated(post)]
    ensures db.nextId == old(db.nextId) + 1
    ensures db.users == old(db.users) && db.notifications == old(db.notifications)
  {
    db.posts := db.posts + [post];
    db.nextId := db.nextId + 1;
    db.outbox := db.outbox + [PostCreated(post)];
    AppendFreshPost(db.users, old(db.posts), db.notifications, old(db.nextId), post, db.posts, db.nextId);
  }

  /** Text made only of white space gets past the route's `!text` test (a non-empty string
   *  is truthy) but the trim setter empties it, the hook then fails, and the route answers
   *  with the 500 branch having stored nothing. */
  lemma {:induction false} BlankTextPassesRouteButFailsSchema(id: Id, actor: Actor, text: string, now: int)
    requires text != "" && IsBlank(text)
    ensures Truthy(Some(text))
    ensures Validate(Draft(id, actor, Some(text), None, now)).Rejected?
  {
    NoContentRejected(Draft(id, actor, Some(text), None, now));
  }

  /** Text that is not blank and fits once trimmed is enough, with or without an image;
   *  the stored text is the trimmed one. */
  lemma {:induction false} DraftWithTextAccepted(id: Id, actor: Actor, text: string, image: Option<string>, now: int)
    requires actor.username != ""
    requires !IsBlank(text) && |Trim(text)| <= MaxTextLength
    ensures Validate(Draft(id, actor, Some(text), image, now)).Accepted?
    ensures Validate(Draft(id, actor, Some(text), image, now)).post.text == Trim(text)
  {
    assert text != "";
    var d := Draft(id, actor, Some(text), image, now);
    assert d.text == text;
    assert Acceptable(d);
  }

  /** An image is enough, with or without text, as long as any text fits once trimmed. */
  lemma {:induction false} DraftWithImageAccepted(id: Id, actor: Actor, text: Option<string>, image: string, now: int)
    requires actor.username != "" && image != ""
    requires text.Some? ==> |Trim(text.value)| <= MaxTextLength
    ensures Validate(Draft(id, actor, text, Some(image), now)).Accepted?
  {
    var d := Draft(id, actor, text, Some(image), now);
    assert Trim("") == "";
    assert Acceptable(d);
  }

  // ---------------------------------------------------------------- list

  /** Newest first: every post is at least as recent as the ones after it. */
  predicate NewestFirstOrder(s: seq<Post>) {
    forall i, j :: 0 <= i < j < |s| ==> s[i].createdAt >= s[j].createdAt
  }

  /** Inserts p in front of the first post no newer than it. */
  function InsertByDate(p: Post, s: seq<Post>): (r: seq<Post>)
    requires NewestFirstOrder(s)
    ensures NewestFirstOrder(r)
    ensures multiset(r) == multiset(s) + multiset{p}
    ensures |r| == |s| + 1
  {
    if s == [] || s[0].createdAt <= p.createdAt then
      assert forall j :: 0 <= j < |s| ==> s[j].createdAt <= s[0].createdAt;
      [p] + s
    else
      var t := InsertByDate(p, s[1..]);
      assert s == [s[0]] + s[1..];
      NoNewerThanHead(p, s, t);
      [s[0]] + t
  }

  /** Every element of t, a reordering of s[1..] and p, is no newer than s[0]. */
  lemma NoNewerThanHead(p: Post, s: seq<Post>, t: seq<Post>)
    requires NewestFirstOrder(s) && s != [] && p.createdAt < s[0].createdAt
    requires NewestFirstOrder(t) && multiset(t) == multiset(s[1..]) + multiset{p}
    ensures NewestFirstOrder([s[0]] + t)
  {
    forall j | 0 <= j < |t| ensures t[j].createdAt <= s[0].createdAt {
      assert t[j] in multiset(t);
      if t[j] != p {
        assert t[j] in s[1..];
      }
    }
  }

  /** `sort({ createdAt: -1 })`: the collection reordered newest first. */
  function NewestFirst(posts: seq<Post>): (r: seq<Post>)
    ensures NewestFirstOrder(r)
    ensures multiset(r) == multiset(posts)
    ensures |r| == |posts|
  {
    if posts == [] then []
    else
      assert posts == [posts[0]] + posts[1..];
      InsertByDate(posts[0], NewestFirst(posts[1..]))
  }

  /** `.skip(skip).limit(count)` on a sorted result: up to `count` items from position `skip`. */
  function Window<T>(s: seq<T>, skip: nat, count: nat): (r: seq<T>)
    ensures |r| == if skip >= |s| then 0 else if count < |s| - skip then count else |s| - skip
    ensures forall k :: 0 <= k < |r| ==> r[k] == s[skip + k]
  {
    if skip >= |s| then []
    else if count < |s| - skip then s[skip..skip + count]
    else s[skip..]
  }

  /** `parseInt(q) || d`: an absent, unparsable (NaN) or zero parameter falls back to d. */
  function OrDefault(q: Option<int>, d: int): (n: int)
    ensures d != 0 ==> n != 0
    ensures q.Some? && q.value != 0 ==> n == q.value
  {
    if q.Some? && q.value != 0 then q.value else d
  }

  /** Euclidean division by a positive divisor brackets the dividend. */
  lemma DivBounds(total: int, m: int)
    requires m > 0
    ensures (total / m) * m <= total < (total / m) * m + m
  {
  }

  /** Math.ceil(total / limit): the least k with total <= k * limit for a positive limit,
   *  and for a negative one the least k with k * limit <= total. */
  function CeilDiv(total: nat, limit: int): (k: int)
    requires limit != 0
    ensures limit > 0 ==> (k - 1) * limit < total <= k * limit
    ensures limit < 0 ==> k * limit <= total < (k - 1) * limit
  {
    if limit > 0 then
      var k := (total + limit - 1) / limit;
      DivBounds(total + limit - 1, limit);
      assert (k - 1) * limit == k * limit - limit;
      k
    else
      var m := -limit;
      var q := total / m;
      DivBounds(total, m);
      assert (-q) * limit == q * m;
      assert (-q - 1) * limit == q * m + m;
      -q
  }

  function Abs(x: int): nat {
    if x < 0 then -x else x
  }

  datatype PostsPage = PostsPage(posts: seq<Post>, currentPage: int, totalPages: int, totalPosts: nat)

  /** GET /api/posts. A negative skip is refused by the database and lands on the 500
   *  branch; a negative limit is taken by its magnitude, as the driver does. */
  function ListPosts(posts: seq<Post>, pageQ: Option<int>, limitQ: Option<int>): (r: Reply<PostsPage>)
    ensures var page := OrDefault(pageQ, 1);
            var limit := OrDefault(limitQ, DefaultLimit);
            var skip := (page - 1) * limit;
            && (r.Err? <==> skip < 0)
            && (r.Err? ==> r == Err(500, MsgFetchFailed))
            && (r.Ok? ==>
                  && r.status == 200
                  && r.body.currentPage == page
                  && r.body.totalPosts == |posts|
                  && r.body.totalPages == CeilDiv(|posts|, limit)
                  && |r.body.posts| <= Abs(limit)
                  && (skip < |posts| ==> |r.body.posts| == if Abs(limit) < |posts| - skip then Abs(limit) else |posts| - skip)
                  && (skip >= |posts| ==> r.body.posts == [])
                  && (forall k :: 0 <= k < |r.body.posts| ==> r.body.posts[k] == NewestFirst(posts)[skip + k]))
  {
    var page := OrDefault(pageQ, 1);
    var limit := OrDefault(limitQ, DefaultLimit);
    var skip := (page - 1) * limit;
    if skip < 0 then Err(500, MsgFetchFailed)
    else
      Ok(200, PostsPage(Window(NewestFirst(posts), skip, Abs(limit)), page, CeilDiv(|posts|, limit), |posts|))
  }

  /** With a positive limit, page p (p >= 1) holds posts exactly when p <= totalPages. */
  lemma {:induction false} PageNonEmptyIffWithinTotal(posts: seq<Post>, page: int, limit: int)
    requires page >= 1 && limit > 0
    ensures ListPosts(posts, Some(page), Some(limit)).Ok?
    ensures var r := ListPosts(posts, Some(page), Some(limit));
            r.body.posts != [] <==> page <= r.body.totalPages
  {
    var k := CeilDiv(|posts|, limit);
    var skip := (page - 1) * limit;
    MulMonotone(0, page - 1, limit);
    if page <= k {
      MulMonotone(page - 1, k - 1, limit);
    } else {
      MulMonotone(k, page - 1, limit);
    }
  }

  /** With a positive limit, the post at position j of the newest-first order appears on
   *  page j / limit + 1, at position j % limit: consecutive pages tile the feed. */
  lemma {:induction false} EveryPostOnItsPage(posts: seq<Post>, limit: int, j: nat)
    requires limit > 0 && j < |posts|
    ensures var r := ListPosts(posts, Some(j / limit + 1), Some(limit));
            && r.Ok?
            && j % limit < |r.body.posts|
            && r.body.posts[j % limit] == NewestFirst(posts)[j]
  {
    PageStart(j, limit);
    PagePosition(posts, j / limit + 1, limit, j - j % limit, j % limit);
  }

  /** Position m of a page, when it is inside the feed, is the post at skip + m. */
  lemma PagePosition(posts: seq<Post>, page: int, limit: int, skip: int, m: nat)
    requires page >= 1 && limit > 0 && skip == (page - 1) * limit
    requires m < limit && skip + m < |posts|
    ensures var r := ListPosts(posts, Some(page), Some(limit));
            && r.Ok?
            && m < |r.body.posts|
            && r.body.posts[m] == NewestFirst(posts)[skip + m]
  {
    PageContents(posts, page, limit, skip);
    WindowPosition(NewestFirst(posts), skip, limit, m);
  }

  /** Position m of a window, when it is inside the sequence, is the element at skip + m. */
  lemma WindowPosition<T>(s: seq<T>, skip: nat, count: nat, m: nat)
    requires m < count && skip + m < |s|
    ensures m < |Window(s, skip, count)| && Window(s, skip, count)[m] == s[skip + m]
  {
  }

  /** A page requested with a positive page number and limit is the window at its skip. */
  lemma PageContents(posts: seq<Post>, page: int, limit: int, skip: int)
    requires page >= 1 && limit > 0 && skip == (page - 1) * limit
    ensures skip >= 0
    ensures ListPosts(posts, Some(page), Some(limit)).Ok?
    ensures ListPosts(posts, Some(page), Some(limit)).body.posts == Window(NewestFirst(posts), skip, limit)
  {
    MulMonotone(0, page - 1, limit);
  }

  /** The first position of the page holding position j. */
  lemma PageStart(j: nat, limit: int)
    requires limit > 0
    ensures (j / limit + 1 - 1) * limit == j - j % limit
    ensures 0 <= j % limit < limit && j - j % limit >= 0
  {
  }

  // ---------------------------------------------------------------- like

  /** The like branch of POST /api/posts/:id/like: the actor's id and current username are pushed onto the two arrays. */
  function Liked(p: Post, actor: Actor): (r: Post)
    requires actor.id !in p.likes
    ensures r.id == p.id && r.user == p.user && r.username == p.username && r.text == p.text
    ensures r.image == p.image && r.comments == p.comments && r.createdAt == p.createdAt
    ensures r.likes == p.likes + [actor.id] && r.likesUsernames == p.likesUsernames + [actor.username]
    ensures NoDup(p.likes) ==> NoDup(r.likes)
    ensures forall u :: u in r.likes <==> u in p.likes || u == actor.id
  {
    PushNoDup(p.likes, actor.id);
    p.(likes := p.likes + [actor.id], likesUsernames := p.likesUsernames + [actor.username])
  }

  /** The unlike branch of POST /api/posts/:id/like: `likes` loses the actor's entry; `likesUsernames` loses the
   *  entry at the first position of the actor's current username, or its last entry when
   *  that name is absent (indexOf gives -1). */
  function Unliked(p: Post, actor: Actor): (r: Post)
    requires actor.id in p.likes
    ensures r.id == p.id && r.user == p.user && r.username == p.username && r.text == p.text
    ensures r.image == p.image && r.comments == p.comments && r.createdAt == p.createdAt
    ensures multiset(r.likes) == multiset(p.likes) - multiset{actor.id}
    ensures |r.likes| == |p.likes| - 1
    ensures NoDup(p.likes) ==> NoDup(r.likes) && actor.id !in r.likes
    ensures forall u :: u != actor.id ==> (u in r.likes <==> u in p.likes)
    ensures |r.likesUsernames| == if p.likesUsernames == [] then 0 else |p.likesUsernames| - 1
    ensures multiset(r.likesUsernames) <= multiset(p.likesUsernames)
    ensures actor.username in p.likesUsernames ==>
              multiset(r.likesUsernames) == multiset(p.likesUsernames) - multiset{actor.username}
  {
    var k := IndexOf(p.likes, actor.id);
    var j := IndexOf(p.likesUsernames, actor.username);
    RemoveAtMultiset(p.likes, k);
    RemoveAtMembers(p.likes, k);
    RemoveAtNoDup(p.likes, k);
    p.(likes := SpliceOne(p.likes, k), likesUsernames := SpliceOne(p.likesUsernames, j))
  }

  /** The post after `actor` presses the like button (POST /api/posts/:id/like). */
  function Toggled(p: Post, actor: Actor): (r: Post)
    ensures r.id == p.id && r.user == p.user && r.username == p.username && r.text == p.text
    ensures r.image == p.image && r.comments == p.comments && r.createdAt == p.createdAt
    ensures NoDup(p.likes) ==> NoDup(r.likes) && (actor.id in r.likes <==> actor.id !in p.likes)
    ensures forall u :: u != actor.id ==> (u in r.likes <==> u in p.likes)
    ensures |p.likes| == |p.likesUsernames| ==> |r.likes| == |r.likesUsernames|
  {
    if actor.id in p.likes then Unliked(p, actor) else Liked(p, actor)
  }

  /** The like notification that `Notification.create` stores in the like branch. */
  function LikeNote(id: Id, p: Post, actor: Actor, now: int): Notification {
    Notification(id, p.user, actor.id, actor.username, LikeKind, p.id, PostExcerpt(p.text), None, false, now)
  }

  /** Whether the toggle is a like that notifies someone else. */
  predicate NotifiesLike(p: Post, actor: Actor) {
    actor.id !in p.likes && p.user != actor.id
  }

  /** The notifications after the toggle: unlike deletes one matching like notification,
   *  a like on someone else's post creates one. */
  function NotesAfterToggle(ns: seq<Notification>, p: Post, actor: Actor, id: Id, now: int): seq<Notification> {
    if actor.id in p.likes then DeleteOneLike(ns, p.user, actor.id, p.id)
    else if p.user != actor.id then ns + [LikeNote(id, p, actor, now)]
    else ns
  }

  /** The events of a toggle: `newNotification` first when one was created, then `postLiked`. */
  function ToggleEvents(p: Post, actor: Actor): seq<Event> {
    var t := Toggled(p, actor);
    (if NotifiesLike(p, actor) then [NewNotification(p.user, LikeKind)] else [])
    + [PostLiked(p.id, t.likes, |t.likes|, t.likesUsernames, actor.id !in p.likes)]
  }

  datatype LikeSummary = LikeSummary(likes: seq<Id>, likesCount: nat, likesUsernames: seq<string>)

  /** How the toggle changes the like-notification counts: only the (author, actor, post)
   *  key moves, down by one on unlike and up by one on a like that notifies. */
  lemma CountsAfterToggle(ns: seq<Notification>, p: Post, actor: Actor, id: Id, now: int, rc: Id, sd: Id, pt: Id)
    ensures var ns' := NotesAfterToggle(ns, p, actor, id, now);
            var c := CountLikeNotes(ns, rc, sd, pt);
            && (!(rc == p.user && sd == actor.id && pt == p.id) ==> CountLikeNotes(ns', rc, sd, pt) == c)
            && (rc == p.user && sd == actor.id && pt == p.id ==>
                  CountLikeNotes(ns', rc, sd, pt) ==
                    if actor.id in p.likes then (if c == 0 then 0 else c - 1)
                    else if p.user != actor.id then c + 1
                    else c)
  {
    if actor.id !in p.likes && p.user != actor.id {
      CountLikeNotesAppend(ns, LikeNote(id, p, actor, now), rc, sd, pt);
    }
  }

  /** The toggled post itself still mirrors its like notifications. */
  lemma ToggledMirrors(ns: seq<Notification>, p: Post, actor: Actor, id: Id, now: int)
    requires MirrorsLikes(p, ns) && NoDup(p.likes)
    ensures MirrorsLikes(Toggled(p, actor), NotesAfterToggle(ns, p, actor, id, now))
  {
    var t := Toggled(p, actor);
    var ns' := NotesAfterToggle(ns, p, actor, id, now);
    forall u: Id | u != t.user ensures CountLikeNotes(ns', t.user, u, t.id) == (if u in t.likes then 1 else 0) {
      CountsAfterToggle(ns, p, actor, id, now, p.user, u, p.id);
    }
  }

  /** Any other post keeps mirroring its like notifications across the toggle. */
  lemma OtherPostMirrors(ns: seq<Notification>, p: Post, actor: Actor, id: Id, now: int, q: Post)
    requires MirrorsLikes(q, ns) && q.id != p.id
    ensures MirrorsLikes(q, NotesAfterToggle(ns, p, actor, id, now))
  {
    forall u: Id | u != q.user
      ensures CountLikeNotes(NotesAfterToggle(ns, p, actor, id, now), q.user, u, q.id) == CountLikeNotes(ns, q.user, u, q.id)
    {
      CountsAfterToggle(ns, p, actor, id, now, q.user, u, q.id);
    }
  }

  /** The toggle keeps every store invariant; in particular the like notifications keep
   *  mirroring the likers of every post, so a like notification exists exactly while the
   *  like does. */
  lemma ToggleKeepsInvariants(posts: seq<Post>, ns: seq<Notification>, users: seq<User>, next: Id, i: nat, actor: Actor, now: int,
                               posts': seq<Post>, ns': seq<Notification>, next': Id)
    requires StoreInvariant(users, posts, ns, next)
    requires i < |posts|
    requires posts' == posts[i := Toggled(posts[i], actor)]
    requires ns' == NotesAfterToggle(ns, posts[i], actor, next, now)
    requires next' == if NotifiesLike(posts[i], actor) then next + 1 else next
    ensures StoreInvariant(users, posts', ns', next')
  {
    var p := posts[i];
    var t := Toggled(p, actor);
    assert p in posts;
    forall a, b | 0 <= a < b < |posts'| ensures posts'[a].id != posts'[b].id {
      assert posts'[a].id == posts[a].id && posts'[b].id == posts[b].id;
    }
    forall q | q in posts' ensures StoredPost(q, next') && MirrorsLikes(q, ns') {
      var k :| 0 <= k < |posts'| && posts'[k] == q;
      if k == i {
        ToggledMirrors(ns, p, actor, next, now);
      } else {
        assert q == posts[k] && q in posts;
        OtherPostMirrors(ns, p, actor, next, now, q);
      }
    }
    forall n | n in ns' ensures n.recipient != n.sender && n.post < next' {
      if actor.id in p.likes {
        assert n in multiset(ns');
      } else if p.user != actor.id && n !in ns {
        assert n == LikeNote(next, p, actor, now);
      }
    }
  }

  /** POST /api/posts/:id/like. */
  method ToggleLike(db: Db, postId: Id, actor: Actor, now: int) returns (r: Reply<LikeSummary>)
    requires db.Valid()
    modifies db
    ensures db.Valid()
    ensures FindPost(old(db.posts), postId).None? ==> r == Err(404, MsgPostNotFound) && unchanged(db)
    ensures FindPost(old(db.posts), postId).Some? ==>
              var i := FindPost(old(db.posts), postId).value;
              var p := old(db.posts)[i];
              var t := Toggled(p, actor);
              && db.posts == old(db.posts)[i := t]
              && db.notifications == NotesAfterToggle(old(db.notifications), p, actor, old(db.nextId), now)
              && db.outbox == old(db.outbox) + ToggleEvents(p, actor)
              && db.nextId == (if NotifiesLike(p, actor) then old(db.nextId) + 1 else old(db.nextId))
              && db.users == old(db.users)
              && r == Ok(200, LikeSummary(t.likes, |t.likes|, t.likesUsernames))
  {
    var found := FindPost(db.posts, postId);
    if found.None? {
      return Err(404, MsgPostNotFound);
    }
    var i := found.value;
    var likeIndex := IndexOf(db.posts[i].likes, actor.id);
    if likeIndex > -1 {
      r := RemoveLike(db, i, actor, now);
    } else {
      r := AddLike(db, i, actor, now);
    }
  }

  /** The unlike branch: both arrays are spliced and the like notification deleted. */
  method RemoveLike(db: Db, i: nat, actor: Actor, now: int) returns (r: Reply<LikeSummary>)
    requires db.Valid() && i < |db.posts| && actor.id in db.posts[i].likes
    modifies db
    ensures db.Valid()
    ensures var p := old(db.posts)[i];
            var t := Toggled(p, actor);
            && db.posts == old(db.posts)[i := t]
            && db.notifications == NotesAfterToggle(old(db.notifications), p, actor, old(db.nextId), now)
            && db.outbox == old(db.outbox) + ToggleEvents(p, actor)
            && db.nextId == old(db.nextId)
            && db.users == old(db.users)
            && r == Ok(200, LikeSummary(t.likes, |t.likes|, t.likesUsernames))
  {
    ghost var posts0, ns0, next0 := db.posts, db.notifications, db.nextId;
    var post := UnlikeDocument(db.posts[i], actor);
    db.notifications := DeleteOneLike(db.notifications, post.user, actor.id, post.id);
    db.posts := db.posts[i := post];
    ToggleKeepsInvariants(posts0, ns0, db.users, next0, i, actor, now, db.posts, db.notifications, db.nextId);
    db.outbox := db.outbox + [PostLiked(post.id, post.likes, |post.likes|, post.likesUsernames, false)];
    r := Ok(200, LikeSummary(post.likes, |post.likes|, post.likesUsernames));
  }

  /** The like branch: both arrays are pushed and, on someone else's post, a like
   *  notification is created and announced. */
  method AddLike(db: Db, i: nat, actor: Actor, now: int) returns (r: Reply<LikeSummary>)
    requires db.Valid() && i < |db.posts| && actor.id !in db.posts[i].likes
    modifies db
    ensures db.Valid()
    ensures var p := old(db.posts)[i];
            var t := Toggled(p, actor);
            && db.posts == old(db.posts)[i := t]
            && db.notifications == NotesAfterToggle(old(db.notifications), p, actor, old(db.nextId), now)
            && db.outbox == old(db.outbox) + ToggleEvents(p, actor)
            && db.nextId == (if NotifiesLike(p, actor) then old(db.nextId) + 1 else old(db.nextId))
            && db.users == old(db.users)
            && r == Ok(200, LikeSummary(t.likes, |t.likes|, t.likesUsernames))
  {
    ghost var posts0, ns0, next0 := db.posts, db.notifications, db.nextId;
    var post := LikeDocument(db.posts[i], actor);
    if post.user != actor.id {
      db.notifications := db.notifications + [LikeNote(db.nextId, post, actor, now)];
      db.nextId := db.nextId + 1;
      db.outbox := db.outbox + [NewNotification(post.user, LikeKind)];
    }
    db.posts := db.posts[i := post];
    ToggleKeepsInvariants(posts0, ns0, db.users, next0, i, actor, now, db.posts, db.notifications, db.nextId);
    db.outbox := db.outbox + [PostLiked(post.id, post.likes, |post.likes|, post.likesUsernames, true)];
    r := Ok(200, LikeSummary(post.likes, |post.likes|, post.likesUsernames));
  }

  /** The in-memory edits of the unlike branch on the fetched document: each array loses
   *  the entry `indexOf` finds for the actor's id and username. */
  method UnlikeDocument(post: Post, actor: Actor) returns (doc: Post)
    requires actor.id in post.likes
    ensures doc == Toggled(post, actor)
  {
    doc := post;
    var likeIndex := IndexOf(doc.likes, actor.id);
    doc := doc.(likes := SpliceOne(doc.likes, likeIndex));
    doc := doc.(likesUsernames := SpliceOne(doc.likesUsernames, IndexOf(doc.likesUsernames, actor.username)));
    assert doc == Unliked(post, actor);
  }

  /** The in-memory edits of the like branch: both arrays get the actor pushed. */
  method LikeDocument(post: Post, actor: Actor) returns (doc: Post)
    requires actor.id !in post.likes
    ensures doc == Toggled(post, actor)
  {
    doc := post;
    doc := doc.(likes := doc.likes + [actor.id]);
    doc := doc.(likesUsernames := doc.likesUsernames + [actor.username]);
    assert doc == Liked(post, actor);
  }

  /** A like followed by an unlike from the same user, whose name is unchanged and not yet
   *  among the liker names, restores both arrays exactly. */
  lemma LikeThenUnlikeRestores(p: Post, actor: Actor)
    requires actor.id !in p.likes && actor.username !in p.likesUsernames
    ensures Toggled(Toggled(p, actor), actor) == p
  {
    PushThenSpliceRestores(p.likes, actor.id);
    PushThenSpliceRestores(p.likesUsernames, actor.username);
  }

  /** ... and the notification the like created is the one the unlike deletes. */
  lemma LikeThenUnlikeRestoresNotes(ns: seq<Notification>, p: Post, actor: Actor, id: Id, id': Id, now: int, now': int)
    requires actor.id !in p.likes
    requires CountLikeNotes(ns, p.user, actor.id, p.id) == 0
    ensures NotesAfterToggle(NotesAfterToggle(ns, p, actor, id, now), Toggled(p, actor), actor, id', now') == ns
  {
    if p.user != actor.id {
      DeleteOneLikeAppended(ns, LikeNote(id, p, actor, now), p.user, actor.id, p.id);
    }
  }

  /** `likesUsernames` lists, position by position, the name `names` records for each liker. */
  predicate Paired(p: Post, names: map<Id, string>) {
    && |p.likes| == |p.likesUsernames|
    && forall k :: 0 <= k < |p.likes| ==> p.likes[k] in names && p.likesUsernames[k] == names[p.likes[k]]
  }

  /** A like keeps the pairing when the actor's name is the one `names` records. */
  lemma LikeKeepsPairing(p: Post, actor: Actor, names: map<Id, string>)
    requires Paired(p, names) && actor.id !in p.likes
    requires actor.id in names && names[actor.id] == actor.username
    ensures Paired(Toggled(p, actor), names)
  {
  }

  /** Removing the same position from both arrays keeps the pairing. */
  lemma RemoveSamePositionKeepsPairing(p: Post, t: Post, names: map<Id, string>, k: nat)
    requires Paired(p, names) && k < |p.likes|
    requires t.likes == p.likes[..k] + p.likes[k + 1..]
    requires t.likesUsernames == p.likesUsernames[..k] + p.likesUsernames[k + 1..]
    ensures Paired(t, names)
  {
    forall m | 0 <= m < |t.likes| ensures t.likes[m] in names && t.likesUsernames[m] == names[t.likes[m]] {
      RemoveAtIndex(p.likes, k, m);
      RemoveAtIndex(p.likesUsernames, k, m);
    }
  }

  /** Removing different positions breaks the pairing when the names are distinct: at the
   *  lower of the two positions a liker is matched with its neighbour's name. */
  lemma RemoveDifferentPositionsBreaksPairing(p: Post, t: Post, names: map<Id, string>, k: nat, j: nat)
    requires Paired(p, names) && NoDup(p.likesUsernames)
    requires k < |p.likes| && j < |p.likes| && k != j
    requires t.likes == p.likes[..k] + p.likes[k + 1..]
    requires t.likesUsernames == p.likesUsernames[..j] + p.likesUsernames[j + 1..]
    ensures !Paired(t, names)
  {
    var m := if j < k then j else k;
    RemoveAtIndex(p.likes, k, m);
    RemoveAtIndex(p.likesUsernames, j, m);
    if j < k {
      assert t.likes[m] == p.likes[j] && t.likesUsernames[m] == p.likesUsernames[j + 1];
    } else {
      assert t.likes[m] == p.likes[k + 1] && t.likesUsernames[m] == p.likesUsernames[k];
    }
  }

  /** The arrays after an unlike: the actor's position leaves `likes`, the looked-up
   *  position (-1 read as the last) leaves `likesUsernames`. */
  lemma UnlikedShape(p: Post, actor: Actor)
    requires actor.id in p.likes && |p.likes| == |p.likesUsernames|
    ensures var k := IndexOf(p.likes, actor.id);
            var j := SpliceStart(|p.likesUsernames|, IndexOf(p.likesUsernames, actor.username));
            && j < |p.likesUsernames|
            && Toggled(p, actor).likes == p.likes[..k] + p.likes[k + 1..]
            && Toggled(p, actor).likesUsernames == p.likesUsernames[..j] + p.likesUsernames[j + 1..]
  {
    var n := |p.likesUsernames|;
    var idx := IndexOf(p.likesUsernames, actor.username);
    var t := Toggled(p, actor);
    assert t == Unliked(p, actor);
    if idx == -1 {
      assert p.likesUsernames[n..] == [];
    }
  }

  /** Exactly when unlike keeps the pairing (liker names distinct): when the username
   *  lookup, with -1 read as the last position, lands on the actor's own position. */
  lemma {:induction false} UnlikePairingExactly(p: Post, actor: Actor, names: map<Id, string>)
    requires Paired(p, names) && NoDup(p.likesUsernames) && actor.id in p.likes
    ensures Paired(Toggled(p, actor), names) <==>
            SpliceStart(|p.likesUsernames|, IndexOf(p.likesUsernames, actor.username)) == IndexOf(p.likes, actor.id)
  {
    UnlikedShape(p, actor);
    UnlikeRemovalsKeepPairingIff(p, Toggled(p, actor), actor, names);
  }

  /** Unlike's two removals (the actor's position in the likers, the spliced position in
   *  the names) keep the pairing exactly when the two positions agree. */
  lemma UnlikeRemovalsKeepPairingIff(p: Post, t: Post, actor: Actor, names: map<Id, string>)
    requires Paired(p, names) && NoDup(p.likesUsernames) && actor.id in p.likes
    requires var k := IndexOf(p.likes, actor.id);
             var j := SpliceStart(|p.likesUsernames|, IndexOf(p.likesUsernames, actor.username));
             && j < |p.likesUsernames|
             && t.likes == p.likes[..k] + p.likes[k + 1..]
             && t.likesUsernames == p.likesUsernames[..j] + p.likesUsernames[j + 1..]
    ensures Paired(t, names) <==>
            SpliceStart(|p.likesUsernames|, IndexOf(p.likesUsernames, actor.username)) == IndexOf(p.likes, actor.id)
  {
    RemovalsKeepPairingIffSameIndex(p, t, names, IndexOf(p.likes, actor.id),
      SpliceStart(|p.likesUsernames|, IndexOf(p.likesUsernames, actor.username)));
  }

  /** Removing position k of the likers and position j of the names keeps the pairing
   *  exactly when k == j. */
  lemma RemovalsKeepPairingIffSameIndex(p: Post, t: Post, names: map<Id, string>, k: nat, j: nat)
    requires Paired(p, names) && NoDup(p.likesUsernames)
    requires k < |p.likes| && j < |p.likesUsernames|
    requires t.likes == p.likes[..k] + p.likes[k + 1..]
    requires t.likesUsernames == p.likesUsernames[..j] + p.likesUsernames[j + 1..]
    ensures Paired(t, names) <==> j == k
  {
    if j == k {
      RemoveSamePositionKeepsPairing(p, t, names, k);
    } else {
      RemoveDifferentPositionsBreaksPairing(p, t, names, k, j);
    }
  }

  /** With distinct names and the actor's name unchanged since the like, unlike keeps the
   *  pairing. */
  lemma {:induction false} UnlikeWithCurrentNameKeepsPairing(p: Post, actor: Actor, names: map<Id, string>)
    requires Paired(p, names) && NoDup(p.likesUsernames) && actor.id in p.likes
    requires actor.id in names && names[actor.id] == actor.username
    ensures Paired(Toggled(p, actor), names)
  {
    var k := IndexOf(p.likes, actor.id);
    var idx := IndexOf(p.likesUsernames, actor.username);
    assert p.likesUsernames[k] == actor.username;
    assert idx == k;
    UnlikePairingExactly(p, actor, names);
  }

  /** After a rename the lookup misses and the last name is dropped instead of the actor's:
   *  likers [1, 2] recorded as ["alice", "bob"]; user 1, renamed "alicia", unlikes, and the
   *  arrays become [2] and ["alice"]. */
  lemma UnlikeAfterRenameDropsWrongName()
    ensures var p := Post(7, 3, "carol", "hello", None, [1, 2], ["alice", "bob"], [], 0);
            var t := Toggled(p, Actor(1, "alicia"));
            && Paired(p, map[1 := "alice", 2 := "bob"])
            && t.likes == [2] && t.likesUsernames == ["alice"]
            && !Paired(t, map[1 := "alice", 2 := "bob"])
  {
    var p := Post(7, 3, "carol", "hello", None, [1, 2], ["alice", "bob"], [], 0);
    RenameExampleArrays(p);
    RenameExamplePairing(p, Toggled(p, Actor(1, "alicia")));
  }

  /** The arrays of the example after the renamed liker's unlike. */
  lemma RenameExampleArrays(p: Post)
    requires p.likes == [1, 2] && p.likesUsernames == ["alice", "bob"]
    ensures Toggled(p, Actor(1, "alicia")).likes == [2]
    ensures Toggled(p, Actor(1, "alicia")).likesUsernames == ["alice"]
  {
    var actor := Actor(1, "alicia");
    assert IndexOf(p.likes, 1) == 0;
    assert "alicia" != "alice" && "alicia" != "bob";
    assert IndexOf(p.likesUsernames, "alicia") == -1;
    assert ["alice", "bob"][..1] == ["alice"];
  }

  /** The example's arrays are paired before and not after. */
  lemma RenameExamplePairing(p: Post, t: Post)
    requires p.likes == [1, 2] && p.likesUsernames == ["alice", "bob"]
    requires t.likes == [2] && t.likesUsernames == ["alice"]
    ensures Paired(p, map[1 := "alice", 2 := "bob"])
    ensures !Paired(t, map[1 := "alice", 2 := "bob"])
  {
    assert t.likesUsernames[0] != map[1 := "alice", 2 := "bob"][t.likes[0]];
  }

  // ---------------------------------------------------------------- comment

  /** The post with the new comment pushed onto `post.comments` by POST /api/posts/:id/comment. */
  function Commented(p: Post, actor: Actor, text: string, now: int): Post {
    p.(comments := p.comments + [Comment(actor.id, actor.username, text, now)])
  }

  /** The comment notification that `Notification.create` stores for a comment by someone other than the author. */
  function CommentNote(id: Id, p: Post, actor: Actor, text: string, now: int): Notification {
    Notification(id, p.user, actor.id, actor.username, CommentKind, p.id, PostExcerpt(p.text),
                 Some(Prefix(text, CommentExcerptLength)), false, now)
  }

  /** Saving a valid post with one more comment whose text is already trimmed and not empty
   *  succeeds exactly when the commenter has a username, and stores the post as given. */
  lemma {:induction false} CommentSaveOutcome(p: Post, actor: Actor, text: string, now: int)
    requires ValidPost(p) && text != "" && IsTrimmed(text)
    ensures Validate(Commented(p, actor, text, now)).Accepted? <==> actor.username != ""
    ensures Validate(Commented(p, actor, text, now)).Accepted? ==>
              Validate(Commented(p, actor, text, now)).post == Commented(p, actor, text, now)
  {
    CommentedInStoredForm(p, actor, text, now);
    ValidateStoredForm(Commented(p, actor, text, now));
    CommentedValidIff(p, actor, text, now);
  }

  /** The setters leave the commented post as it is. */
  lemma CommentedInStoredForm(p: Post, actor: Actor, text: string, now: int)
    requires ValidPost(p) && IsTrimmed(text)
    ensures ApplySetters(Commented(p, actor, text, now)) == Commented(p, actor, text, now)
  {
    CommentedStaysTrimmed(p, actor, text, now);
    TrimmedSettersFixed(Commented(p, actor, text, now));
  }

  /** Every comment of the commented post is stored trimmed. */
  lemma CommentedStaysTrimmed(p: Post, actor: Actor, text: string, now: int)
    requires ValidPost(p) && IsTrimmed(text)
    ensures forall i :: 0 <= i < |Commented(p, actor, text, now).comments| ==>
              IsTrimmed(Commented(p, actor, text, now).comments[i].text)
  {
    var q := Commented(p, actor, text, now);
    forall i | 0 <= i < |q.comments| ensures IsTrimmed(q.comments[i].text) {
      if i < |p.comments| {
        assert q.comments[i] == p.comments[i] && ValidComment(p.comments[i]);
      }
    }
  }

  /** The commented post is valid exactly when the commenter has a username. */
  lemma CommentedValidIff(p: Post, actor: Actor, text: string, now: int)
    requires ValidPost(p) && text != "" && IsTrimmed(text)
    ensures ValidPost(Commented(p, actor, text, now)) <==> actor.username != ""
  {
    var q := Commented(p, actor, text, now);
    var c := Comment(actor.id, actor.username, text, now);
    assert q.comments == p.comments + [c];
    assert q.username == p.username && q.text == p.text && q.image == p.image;
    assert TextProblem(q) == TextProblem(p);
    if actor.username != "" {
      forall i | 0 <= i < |q.comments| ensures ValidComment(q.comments[i]) {
        if i < |p.comments| {
          assert q.comments[i] == p.comments[i];
        }
      }
    } else {
      assert q.comments[|p.comments|] == c;
    }
  }

  /** The notifications after a comment: one comment notification for the author, unless
   *  the author is the commenter. */
  function NotesAfterComment(ns: seq<Notification>, p: Post, actor: Actor, id: Id, text: string, now: int): seq<Notification> {
    if p.user != actor.id then ns + [CommentNote(id, p, actor, text, now)] else ns
  }

  /** The events of a comment: `newNotification` when one was created, then `postCommented`. */
  function CommentEvents(p: Post, actor: Actor, text: string, now: int): seq<Event> {
    var t := Commented(p, actor, text, now);
    (if p.user != actor.id then [NewNotification(p.user, CommentKind)] else [])
    + [PostCommented(p.id, t.comments, |t.comments|)]
  }

  /** A comment keeps the store invariants: only the comments change and the notification
   *  added, if any, is not a like. */
  lemma CommentKeepsInvariants(posts: seq<Post>, ns: seq<Notification>, users: seq<User>, next: Id, i: nat,
                               actor: Actor, text: string, now: int,
                               posts': seq<Post>, ns': seq<Notification>, next': Id)
    requires StoreInvariant(users, posts, ns, next)
    requires i < |posts| && ValidPost(Commented(posts[i], actor, text, now))
    requires posts' == posts[i := Commented(posts[i], actor, text, now)]
    requires ns' == NotesAfterComment(ns, posts[i], actor, next, text, now)
    requires next' == if posts[i].user != actor.id then next + 1 else next
    ensures StoreInvariant(users, posts', ns', next')
  {
    var p := posts[i];
    var t := Commented(p, actor, text, now);
    assert p in posts;
    forall a, b | 0 <= a < b < |posts'| ensures posts'[a].id != posts'[b].id {
      assert posts'[a].id == posts[a].id && posts'[b].id == posts[b].id;
    }
    forall rc, sd, pt ensures CountLikeNotes(ns', rc, sd, pt) == CountLikeNotes(ns, rc, sd, pt) {
      if p.user != actor.id {
        CountLikeNotesAppend(ns, CommentNote(next, p, actor, text, now), rc, sd, pt);
      } else {
        assert ns' == ns;
      }
    }
    forall q | q in posts' ensures StoredPost(q, next') && MirrorsLikes(q, ns') {
      var k :| 0 <= k < |posts'| && posts'[k] == q;
      if k != i {
        assert q == posts[k] && q in posts;
      }
    }
  }

  datatype CommentSummary = CommentSummary(comments: seq<Comment>, commentsCount: nat)

  /** The text the handler sees: the body's `text` trimmed by the validator chain. */
  function SanitizedText(raw: Option<string>): (r: string)
    ensures IsTrimmed(r)
    ensures raw.None? ==> r == ""
    ensures raw.Some? ==> (r == "" <==> IsBlank(raw.value)) && |r| <= |raw.value|
  {
    if raw.Some? then TrimmedIff(raw.value); Trim(raw.value) else ""
  }

  /** POST /api/posts/:id/comment. */
  method AddComment(db: Db, postId: Id, actor: Actor, raw: Option<string>, now: int)
    returns (r: Reply<CommentSummary>)
    requires db.Valid()
    modifies db
    ensures db.Valid()
    ensures SanitizedText(raw) == "" ==> r == Err(400, MsgCommentRequired) && unchanged(db)
    ensures SanitizedText(raw) != "" && FindPost(old(db.posts), postId).None? ==>
              r == Err(404, MsgPostNotFound) && unchanged(db)
    ensures SanitizedText(raw) != "" && FindPost(old(db.posts), postId).Some? && actor.username == "" ==>
              r == Err(500, MsgCommentFailed) && unchanged(db)
    ensures SanitizedText(raw) != "" && FindPost(old(db.posts), postId).Some? && actor.username != "" ==>
              var text := SanitizedText(raw);
              var i := FindPost(old(db.posts), postId).value;
              var p := old(db.posts)[i];
              var t := Commented(p, actor, text, now);
              && db.posts == old(db.posts)[i := t]
              && db.notifications == NotesAfterComment(old(db.notifications), p, actor, old(db.nextId), text, now)
              && db.outbox == old(db.outbox) + CommentEvents(p, actor, text, now)
              && db.nextId == (if p.user != actor.id then old(db.nextId) + 1 else old(db.nextId))
              && db.users == old(db.users)
              && r == Ok(201, CommentSummary(t.comments, |t.comments|))
  {
    var text := SanitizedText(raw);
    if text == "" {
      return Err(400, MsgCommentRequired);
    }
    var found := FindPost(db.posts, postId);
    if found.None? {
      return Err(404, MsgPostNotFound);
    }
    TrimmedIff(raw.value);
    r := CommentOnPost(db, found.value, actor, text, now);
  }

  /** The comment route once the text is known to be non-empty and the post is found: the
   *  comment is pushed and the post saved; a rejected save answers 500. */
  method CommentOnPost(db: Db, i: nat, actor: Actor, text: string, now: int) returns (r: Reply<CommentSummary>)
    requires db.Valid() && i < |db.posts| && text != "" && IsTrimmed(text)
    modifies db
    ensures db.Valid()
    ensures actor.username == "" ==> r == Err(500, MsgCommentFailed) && unchanged(db)
    ensures actor.username != "" ==>
              var p := old(db.posts)[i];
              var t := Commented(p, actor, text, now);
              && db.posts == old(db.posts)[i := t]
              && db.notifications == NotesAfterComment(old(db.notifications), p, actor, old(db.nextId), text, now)
              && db.outbox == old(db.outbox) + CommentEvents(p, actor, text, now)
              && db.nextId == (if p.user != actor.id then old(db.nextId) + 1 else old(db.nextId))
              && db.users == old(db.users)
              && r == Ok(201, CommentSummary(t.comments, |t.comments|))
  {
    StoredPostValid(db.users, db.posts, db.notifications, db.nextId, i);
    var p := db.posts[i];
    var saved := SaveCommented(p, actor, text, now);
    if saved {
      assert ValidPost(Commented(p, actor, text, now));
      r := StoreComment(db, i, actor, text, now);
    } else {
      r := Err(500, MsgCommentFailed);
    }
  }

  /** `post.save()` after the push: whether validation accepts the commented post. */
  method SaveCommented(p: Post, actor: Actor, text: string, now: int) returns (saved: bool)
    requires ValidPost(p) && text != "" && IsTrimmed(text)
    ensures saved == Validate(Commented(p, actor, text, now)).Accepted?
    ensures saved <==> actor.username != ""
    ensures saved ==> ValidPost(Commented(p, actor, text, now))
  {
    CommentSaveOutcome(p, actor, text, now);
    CommentedValidIff(p, actor, text, now);
    var v := Validate(Commented(p, actor, text, now));
    saved := v.Accepted?;
  }

  /** The rest of the comment route once the validated post is saved: the notification and
   *  its event for a non-author, then `postCommented` and the 201 reply. */
  method StoreComment(db: Db, i: nat, actor: Actor, text: string, now: int) returns (r: Reply<CommentSummary>)
    requires db.Valid() && i < |db.posts|
    requires ValidPost(Commented(db.posts[i], actor, text, now))
    modifies db
    ensures db.Valid()
    ensures var p := old(db.posts)[i];
            var t := Commented(p, actor, text, now);
            && db.posts == old(db.posts)[i := t]
            && db.notifications == NotesAfterComment(old(db.notifications), p, actor, old(db.nextId), text, now)
            && db.outbox == old(db.outbox) + CommentEvents(p, actor, text, now)
            && db.nextId == (if p.user != actor.id then old(db.nextId) + 1 else old(db.nextId))
            && db.users == old(db.users)
            && r == Ok(201, CommentSummary(t.comments, |t.comments|))
  {
    ghost var posts0, ns0, next0 := db.posts, db.notifications, db.nextId;
    var saved := db.posts[i];
    var post := Commented(saved, actor, text, now);
    db.posts := db.posts[i := post];
    db.notifications := NotesAfterComment(db.notifications, saved, actor, db.nextId, text, now);
    if saved.user != actor.id {
      db.nextId := db.nextId + 1;
    }
    CommentKeepsInvariants(posts0, ns0, db.users, next0, i, actor, text, now, db.posts, db.notifications, db.nextId);
    db.outbox := db.outbox + CommentEvents(saved, actor, text, now);
    r := Ok(201, CommentSummary(post.comments, |post.comments|));
  }

  /** The comment notification keeps at most the first 100 characters of the comment and
   *  the first 50 of the post, and never notifies the commenter. */
  lemma {:induction false} CommentNoteExcerpts(id: Id, p: Post, actor: Actor, text: string, now: int)
    requires p.user != actor.id
    ensures var n := CommentNote(id, p, actor, text, now);
            && n.recipient != n.sender
            && n.commentText.Some? && |n.commentText.value| <= CommentExcerptLength
            && n.commentText.value == text[..|n.commentText.value|]
            && (|text| <= CommentExcerptLength ==> n.commentText.value == text)
            && (p.text != "" ==> |n.postText| <= 50 && n.postText == p.text[..|n.postText|])
            && (p.text == "" ==> n.postText == "[Image]")
  {
  }

  // ---------------------------------------------------------------- delete

  /** DELETE /api/posts/:id. */
  method DeletePost(db: Db, postId: Id, requester: Id) returns (r: Reply<string>)
    requires db.Valid()
    modifies db
    ensures db.Valid()
    ensures FindPost(old(db.posts), postId).None? ==> r == Err(404, MsgPostNotFound) && unchanged(db)
    ensures FindPost(old(db.posts), postId).Some? && old(db.posts)[FindPost(old(db.posts), postId).value].user != requester ==>
              r == Err(403, MsgNotAuthorized) && unchanged(db)
    ensures FindPost(old(db.posts), postId).Some? && old(db.posts)[FindPost(old(db.posts), postId).value].user == requester ==>
              var i := FindPost(old(db.posts), postId).value;
              && db.posts == old(db.posts)[..i] + old(db.posts)[i + 1..]
              && (forall q :: q in db.posts <==> q in old(db.posts) && q.id != postId)
              && db.outbox == old(db.outbox) + [PostDeleted(postId)]
              && db.notifications == old(db.notifications)
              && db.users == old(db.users) && db.nextId == old(db.nextId)
              && r == Ok(200, MsgDeleted)
  {
    var found := FindPost(db.posts, postId);
    if found.None? {
      return Err(404, MsgPostNotFound);
    }
    var i := found.value;
    if db.posts[i].user != requester {
      return Err(403, MsgNotAuthorized);
    }
    RemovePostKeepsInvariants(db.posts, db.notifications, db.nextId, i);
    db.posts := db.posts[..i] + db.posts[i + 1..];
    db.outbox := db.outbox + [PostDeleted(postId)];
    r := Ok(200, MsgDeleted);
  }

  /** Removing the post at position i removes exactly the posts with its id (there is one)
   *  and keeps the store invariants. */
  lemma RemovePostKeepsInvariants(posts: seq<Post>, ns: seq<Notification>, next: Id, i: nat)
    requires PostsWellFormed(posts, next) && LikesMirrored(posts, ns) && i < |posts|
    ensures var rest := posts[..i] + posts[i + 1..];
            && (forall q :: q in rest <==> q in posts && q.id != posts[i].id)
            && PostsWellFormed(rest, next) && LikesMirrored(rest, ns)
  {
    var rest := posts[..i] + posts[i + 1..];
    RemoveAtMembers(posts, i);
    forall a | 0 <= a < |rest| ensures rest[a].id != posts[i].id && rest[a] in posts {
      RemoveAtIndex(posts, i, a);
    }
    forall a, b | 0 <= a < b < |rest| ensures rest[a].id != rest[b].id {
      RemoveAtIndex(posts, i, a);
      RemoveAtIndex(posts, i, b);
    }
  }
}
