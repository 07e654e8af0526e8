/** The server's persistent state and what it sends out: the users, posts and notifications
 *  collections, and the append-only outbox of socket.io events (`io.emit` appends to it).
 *  Identifiers come from one allocator, so a new document never reuses an id. */
module Store {
  import opened Common
  import opened PostModel

  /** A user document. `password` is the stored credential; its hashing is opaque here. */
  datatype User = User(id: Id, username: string, email: string, password: string)

  /** The rules on user fields that signup and the profile route share, and their messages. */
  const MsgUsernameLength := "Username must be between 3 and 30 characters"
  const MsgInvalidEmail := "Please provide a valid email"
  const MsgUsernameTaken := "Username already taken"
  const MsgEmailTaken := "Email already registered"
  const MinUsernameLength := 3
  const MaxUsernameLength := 30

  /** A trimmed username of acceptable length (`isLength({ min: 3, max: 30 })`). */
  predicate UsernameLengthOk(trimmed: string) {
    MinUsernameLength <= |trimmed| <= MaxUsernameLength
  }

  /** The requester as the authentication middleware resolves it (`req.user`). */
  datatype Actor = Actor(id: Id, username: string)

  /** A notification document; `kind` is 'like' or 'comment', the excerpts are snapshots. */
  datatype Notification = Notification(
    id: Id,
    recipient: Id,
    sender: Id,
    senderUsername: string,
    kind: string,
    post: Id,
    postText: string,
    commentText: Option<string>,
    read: bool,
    createdAt: int)

  /** The socket.io events the routes emit, with their payloads. */
  datatype Event =
    | PostCreated(post: Post)
    | PostDeleted(postId: Id)
    | PostLiked(postId: Id, likes: seq<Id>, likesCount: nat, likesUsernames: seq<string>, isLiked: bool)
    | PostCommented(postId: Id, comments: seq<Comment>, commentsCount: nat)
    | UsernameChanged(userId: Id, oldUsername: string, newUsername: string)
    | NewNotification(userId: Id, kind: string)

  /** An HTTP reply: a status with a JSON body, or a status with `{ message }`. */
  datatype Reply<T> = Ok(status: int, body: T) | Err(status: int, message: string)

  const LikeKind := "like"
  const CommentKind := "comment"

  /** `Post.findById`: the position of the post with that id. */
  function FindPost(posts: seq<Post>, id: Id): (r: Option<nat>)
    ensures r.Some? ==> r.value < |posts| && posts[r.value].id == id
    ensures r.None? <==> forall j :: 0 <= j < |posts| ==> posts[j].id != id
  {
    FindFirst(posts, (p: Post) => p.id == id)
  }

  /** `User.findById`: the position of the user with that id. */
  function FindUser(users: seq<User>, id: Id): (r: Option<nat>)
    ensures r.Some? ==> r.value < |users| && users[r.value].id == id
    ensures r.None? <==> forall j :: 0 <= j < |users| ==> users[j].id != id
  {
    FindFirst(users, (u: User) => u.id == id)
  }

  /** The excerpt a notification keeps of the post: its first 50 characters, or '[Image]'
   *  for a post without text. */
  function PostExcerpt(text: string): (r: string)
    ensures r != ""
    ensures text != "" ==> |r| <= 50 && |r| <= |text| && r == text[..|r|]
    ensures text != "" && |text| <= 50 ==> r == text
  {
    if text != "" then Prefix(text, 50) else "[Image]"
  }

  /** A like notification from `sender` to `recipient` about `post`. */
  predicate IsLikeNote(n: Notification, recipient: Id, sender: Id, post: Id) {
    n.kind == LikeKind && n.recipient == recipient && n.sender == sender && n.post == post
  }

  /** How many like notifications from `sender` to `recipient` about `post` exist. */
  function CountLikeNotes(ns: seq<Notification>, recipient: Id, sender: Id, post: Id): nat {
    if ns == [] then 0
    else (if IsLikeNote(ns[0], recipient, sender, post) then 1 else 0)
         + CountLikeNotes(ns[1..], recipient, sender, post)
  }

  /** `Notification.deleteOne(filter)`: removes the first like notification matching, if any. */
  function DeleteOneLike(ns: seq<Notification>, recipient: Id, sender: Id, post: Id): (r: seq<Notification>)
    ensures |r| <= |ns| && multiset(r) <= multiset(ns)
    ensures CountLikeNotes(r, recipient, sender, post) ==
            if CountLikeNotes(ns, recipient, sender, post) == 0 then 0
            else CountLikeNotes(ns, recipient, sender, post) - 1
    ensures forall rc, sd, pt :: !(rc == recipient && sd == sender && pt == post) ==>
              CountLikeNotes(r, rc, sd, pt) == CountLikeNotes(ns, rc, sd, pt)
    ensures CountLikeNotes(ns, recipient, sender, post) == 0 ==> r == ns
  {
    if ns == [] then []
    else if IsLikeNote(ns[0], recipient, sender, post) then
      assert ns == [ns[0]] + ns[1..];
      ns[1..]
    else
      var t := DeleteOneLike(ns[1..], recipient, sender, post);
      assert ns == [ns[0]] + ns[1..];
      assert ([ns[0]] + t)[1..] == t;
      [ns[0]] + t
  }

  lemma {:induction false} CountLikeNotesAppend(ns: seq<Notification>, n: Notification, recipient: Id, sender: Id, post: Id)
    ensures CountLikeNotes(ns + [n], recipient, sender, post) ==
            CountLikeNotes(ns, recipient, sender, post) + (if IsLikeNote(n, recipient, sender, post) then 1 else 0)
  {
    if ns != [] {
      assert (ns + [n])[1..] == ns[1..] + [n];
      CountLikeNotesAppend(ns[1..], n, recipient, sender, post);
    }
  }

  /** Deleting one matching notification right after appending the only one removes it again. */
  lemma {:induction false} DeleteOneLikeAppended(ns: seq<Notification>, n: Notification, recipient: Id, sender: Id, post: Id)
    requires IsLikeNote(n, recipient, sender, post)
    requires CountLikeNotes(ns, recipient, sender, post) == 0
    ensures DeleteOneLike(ns + [n], recipient, sender, post) == ns
  {
    if ns != [] {
      assert (ns + [n])[1..] == ns[1..] + [n];
      DeleteOneLikeAppended(ns[1..], n, recipient, sender, post);
      assert ns == [ns[0]] + ns[1..];
    }
  }

  /** No notification refers to a post id the allocator has not handed out yet. */
  lemma {:induction false} CountLikeNotesFresh(ns: seq<Notification>, next: Id, recipient: Id, sender: Id)
    requires forall n :: n in ns ==> n.post < next
    ensures CountLikeNotes(ns, recipient, sender, next) == 0
  {
    if ns != [] {
      assert ns[0] in ns;
      assert forall n :: n in ns[1..] ==> n in ns;
      CountLikeNotesFresh(ns[1..], next, recipient, sender);
    }
  }

  /** A stored post: its id is allocated, it passed the schema, no user appears twice
   *  among its likers, and `likes` and `likesUsernames` have one entry per like. */
  ghost predicate StoredPost(p: Post, next: Id) {
    p.id < next && ValidPost(p) && NoDup(p.likes) && |p.likes| == |p.likesUsernames|
  }

  /** Post ids are distinct and every post is a stored post. */
  ghost predicate PostsWellFormed(posts: seq<Post>, next: Id) {
    && (forall i, j :: 0 <= i < j < |posts| ==> posts[i].id != posts[j].id)
    && (forall p :: p in posts ==> StoredPost(p, next))
  }

  /** User ids, usernames and emails are each unique; ids are allocated. */
  ghost predicate UsersWellFormed(users: seq<User>, next: Id) {
    && (forall i, j :: 0 <= i < j < |users| ==>
          users[i].id != users[j].id && users[i].username != users[j].username && users[i].email != users[j].email)
    && (forall u :: u in users ==> u.id < next)
  }

  /** Nobody is notified of their own action; notifications name allocated post ids. */
  ghost predicate NotesWellFormed(ns: seq<Notification>, next: Id) {
    forall n :: n in ns ==> n.recipient != n.sender && n.post < next
  }

  /** A post's like notifications mirror its likers: for every user other than the author
   *  there is exactly one like notification to the author when that user currently likes
   *  the post, and none otherwise. */
  ghost predicate MirrorsLikes(p: Post, ns: seq<Notification>) {
    forall u: Id :: u != p.user ==> CountLikeNotes(ns, p.user, u, p.id) == (if u in p.likes then 1 else 0)
  }

  ghost predicate LikesMirrored(posts: seq<Post>, ns: seq<Notification>) {
    forall p :: p in posts ==> MirrorsLikes(p, ns)
  }

  /** Everything the routes keep true of the collections. */
  ghost predicate StoreInvariant(users: seq<User>, posts: seq<Post>, ns: seq<Notification>, next: Id) {
    && PostsWellFormed(posts, next)
    && UsersWellFormed(users, next)
    && NotesWellFormed(ns, next)
    && LikesMirrored(posts, ns)
  }

  /** Handing out the next id keeps the users and notifications well formed. */
  lemma AllocatorAdvance(users: seq<User>, ns: seq<Notification>, next: Id)
    requires UsersWellFormed(users, next) && NotesWellFormed(ns, next)
    ensures UsersWellFormed(users, next + 1) && NotesWellFormed(ns, next + 1)
  {
  }

  /** Every stored post passed the schema, and its two like arrays have equal length. */
  lemma StoredPostValid(users: seq<User>, posts: seq<Post>, ns: seq<Notification>, next: Id, i: nat)
    requires StoreInvariant(users, posts, ns, next) && i < |posts|
    ensures ValidPost(posts[i]) && NoDup(posts[i].likes) && |posts[i].likes| == |posts[i].likesUsernames|
  {
    assert posts[i] in posts;
  }

  /** The database and the socket.io server of one backend process. */
  class Db {
    var users: seq<User>
    var posts: seq<Post>
    var notifications: seq<Notification>
    var outbox: seq<Event>
    var nextId: Id

    ghost predicate Valid()
      reads this
    {
      StoreInvariant(users, posts, notifications, nextId)
    }

    constructor ()
      ensures Valid()
      ensures users == [] && posts == [] && notifications == [] && outbox == []
    {
      users, posts, notifications, outbox := [], [], [], [];
      nextId := 0;
    }
  }
}
