/** The profile route: a user changes their username and/or email. The new values are
 *  checked for shape and for uniqueness, the user document is saved, and a new username is
 *  copied onto the user's posts and onto their comments in every post. */
module UserRoutes {
  import opened Common
  import opened PostModel
  import opened Store

  const MsgUserNotFound := "User not found"

  /** The profile returned to the client: the user without the password. */
  datatype Profile = Profile(id: Id, username: string, email: string)

  /** The first failing check of the validator chains, in declaration order: the username
   *  (when present, trimmed), then the email (when present). `optional()` skips only a
   *  missing field, so an empty string is checked. */
  function ProfileInputError(username: Option<string>, email: Option<string>, isEmail: string -> bool): (r: Option<string>)
    ensures r.None? <==> (username.Some? ==> UsernameLengthOk(Trim(username.value))) && (email.Some? ==> isEmail(email.value))
    ensures username.Some? && !UsernameLengthOk(Trim(username.value)) ==> r == Some(MsgUsernameLength)
    ensures (username.Some? ==> UsernameLengthOk(Trim(username.value))) && email.Some? && !isEmail(email.value) ==>
              r == Some(MsgInvalidEmail)
  {
    if username.Some? && !UsernameLengthOk(Trim(username.value)) then Some(MsgUsernameLength)
    else if email.Some? && !isEmail(email.value) then Some(MsgInvalidEmail)
    else None
  }

  /** `User.findOne({ username })`. */
  function UsernameHolder(users: seq<User>, name: string): (r: Option<nat>)
    ensures r.Some? ==> r.value < |users| && users[r.value].username == name
    ensures r.None? <==> forall j :: 0 <= j < |users| ==> users[j].username != name
  {
    FindFirst(users, (u: User) => u.username == name)
  }

  /** `User.findOne({ email })`. */
  function EmailHolder(users: seq<User>, email: string): (r: Option<nat>)
    ensures r.Some? ==> r.value < |users| && users[r.value].email == email
    ensures r.None? <==> forall j :: 0 <= j < |users| ==> users[j].email != email
  {
    FindFirst(users, (u: User) => u.email == email)
  }

  /** The sanitised username the handler reads (absent: ''). */
  function NewName(username: Option<string>): string {
    if username.Some? then Trim(username.value) else ""
  }

  /** The sanitised email the handler reads (absent: ''). */
  function NewEmail(email: Option<string>, normalize: string -> string): string {
    if email.Some? then normalize(email.value) else ""
  }

  /** Whether the request renames the user (`username && username !== user.username`). */
  predicate Renames(u: User, username: Option<string>) {
    NewName(username) != "" && NewName(username) != u.username
  }

  /** Whether the request changes the email (`email && email !== user.email`). */
  predicate ChangesEmail(u: User, email: Option<string>, normalize: string -> string) {
    NewEmail(email, normalize) != "" && NewEmail(email, normalize) != u.email
  }

  /** The user document as saved. */
  function Updated(u: User, username: Option<string>, email: Option<string>, normalize: string -> string): User {
    u.(username := if Renames(u, username) then NewName(username) else u.username,
       email := if ChangesEmail(u, email, normalize) then NewEmail(email, normalize) else u.email)
  }

  // ---------------------------------------------------------------- the rename fan-out

  /** Two posts that differ at most in their `username`. */
  predicate AgreeBesideUsername(a: Post, b: Post) {
    && a.id == b.id && a.user == b.user && a.text == b.text && a.image == b.image
    && a.likes == b.likes && a.likesUsernames == b.likesUsernames && a.comments == b.comments
    && a.createdAt == b.createdAt
  }

  /** Two posts that differ at most in the `username` of their comments. */
  predicate AgreeBesideCommenterNames(a: Post, b: Post) {
    && a.id == b.id && a.user == b.user && a.username == b.username && a.text == b.text
    && a.image == b.image && a.likes == b.likes && a.likesUsernames == b.likesUsernames
    && a.createdAt == b.createdAt && |a.comments| == |b.comments|
    && forall j :: 0 <= j < |a.comments| ==>
         && a.comments[j].user == b.comments[j].user
         && a.comments[j].text == b.comments[j].text
         && a.comments[j].createdAt == b.comments[j].createdAt
  }

  function RenamedAuthor(p: Post, uid: Id, name: string): Post {
    if p.user == uid then p.(username := name) else p
  }

  /** `Post.updateMany({ user: uid }, { $set: { username: name } })`. */
  function RenameAuthor(posts: seq<Post>, uid: Id, name: string): (r: seq<Post>)
    ensures |r| == |posts|
    ensures forall k :: 0 <= k < |r| ==>
              && AgreeBesideUsername(r[k], posts[k])
              && r[k].username == (if posts[k].user == uid then name else posts[k].username)
  {
    seq(|posts|, k requires 0 <= k < |posts| => RenamedAuthor(posts[k], uid, name))
  }

  function RenamedComment(c: Comment, uid: Id, name: string): Comment {
    if c.user == uid then c.(username := name) else c
  }

  function RenamedCommenter(p: Post, uid: Id, name: string): Post {
    p.(comments := seq(|p.comments|, j requires 0 <= j < |p.comments| => RenamedComment(p.comments[j], uid, name)))
  }

  /** `Post.updateMany` with the array filter `elem.user == uid`: every comment by uid, in
   *  any post, takes the new name. */
  function RenameCommenter(posts: seq<Post>, uid: Id, name: string): (r: seq<Post>)
    ensures |r| == |posts|
    ensures forall k :: 0 <= k < |r| ==>
              && AgreeBesideCommenterNames(r[k], posts[k])
              && forall j :: 0 <= j < |r[k].comments| ==>
                   r[k].comments[j].username ==
                     (if posts[k].comments[j].user == uid then name else posts[k].comments[j].username)
  {
    seq(|posts|, k requires 0 <= k < |posts| => RenamedCommenter(posts[k], uid, name))
  }

  /** The whole fan-out: authorship first, then comments. */
  function Rename(posts: seq<Post>, uid: Id, name: string): seq<Post> {
    RenameCommenter(RenameAuthor(posts, uid, name), uid, name)
  }

  /** After the fan-out, every post and comment by the user carries the new name; every
   *  other author's name, the liker names, the likes and the texts are as before. */
  lemma {:induction false} RenameEffect(posts: seq<Post>, uid: Id, name: string)
    ensures var r := Rename(posts, uid, name);
            && |r| == |posts|
            && (forall k :: 0 <= k < |r| ==>
                  && r[k].id == posts[k].id && r[k].user == posts[k].user
                  && r[k].text == posts[k].text && r[k].image == posts[k].image
                  && r[k].likes == posts[k].likes && r[k].likesUsernames == posts[k].likesUsernames
                  && r[k].createdAt == posts[k].createdAt
                  && r[k].username == (if posts[k].user == uid then name else posts[k].username)
                  && |r[k].comments| == |posts[k].comments|)
            && (forall k, j :: 0 <= k < |r| && 0 <= j < |r[k].comments| ==>
                  && r[k].comments[j].user == posts[k].comments[j].user
                  && r[k].comments[j].text == posts[k].comments[j].text
                  && r[k].comments[j].createdAt == posts[k].comments[j].createdAt
                  && r[k].comments[j].username ==
                       (if posts[k].comments[j].user == uid then name else posts[k].comments[j].username))
  {
    var a := RenameAuthor(posts, uid, name);
    var r := RenameCommenter(a, uid, name);
    forall k, j | 0 <= k < |r| && 0 <= j < |r[k].comments|
      ensures r[k].comments[j].username ==
                (if posts[k].comments[j].user == uid then name else posts[k].comments[j].username)
    {
      assert a[k].comments == posts[k].comments;
    }
  }

  /** Renaming twice to the same name is renaming once. */
  lemma {:induction false} RenameIdempotent(posts: seq<Post>, uid: Id, name: string)
    ensures Rename(Rename(posts, uid, name), uid, name) == Rename(posts, uid, name)
  {
    var r := Rename(posts, uid, name);
    var rr := Rename(r, uid, name);
    RenameEffect(posts, uid, name);
    RenameEffect(r, uid, name);
    forall k | 0 <= k < |r| ensures rr[k] == r[k] {
      assert rr[k].comments == r[k].comments;
    }
  }

  /** One post of the store before and after a rename to a non-empty name: it stays valid
   *  and its like notifications stay mirrored, since ids, authors and likers are untouched. */
  lemma RenamedPostStaysValid(p: Post, q: Post, ns: seq<Notification>, next: Id, uid: Id, name: string)
    requires StoredPost(p, next) && MirrorsLikes(p, ns) && name != ""
    requires q.id == p.id && q.user == p.user && q.text == p.text && q.image == p.image
    requires q.likes == p.likes && q.likesUsernames == p.likesUsernames && q.username in {p.username, name} && |q.comments| == |p.comments|
    requires forall j :: 0 <= j < |q.comments| ==>
               q.comments[j].text == p.comments[j].text && q.comments[j].username in {p.comments[j].username, name}
    ensures StoredPost(q, next) && MirrorsLikes(q, ns)
  {
    forall j | 0 <= j < |q.comments| ensures ValidComment(q.comments[j]) {
      assert ValidComment(p.comments[j]);
    }
  }

  /** A rename to a non-empty name keeps every stored post valid and the like
   *  notifications mirrored. */
  lemma RenameKeepsPostsWellFormed(posts: seq<Post>, ns: seq<Notification>, next: Id, uid: Id, name: string)
    requires PostsWellFormed(posts, next) && LikesMirrored(posts, ns) && name != ""
    ensures PostsWellFormed(Rename(posts, uid, name), next) && LikesMirrored(Rename(posts, uid, name), ns)
  {
    var r := Rename(posts, uid, name);
    RenameEffect(posts, uid, name);
    forall k | 0 <= k < |r| ensures StoredPost(r[k], next) && MirrorsLikes(r[k], ns) {
      assert posts[k] in posts;
      RenamedPostStaysValid(posts[k], r[k], ns, next, uid, name);
    }
    forall q | q in r ensures StoredPost(q, next) && MirrorsLikes(q, ns) {
      var k :| 0 <= k < |r| && r[k] == q;
    }
  }

  /** Saving the updated user keeps usernames and emails unique when the new values are
   *  not held by anyone. */
  lemma UpdateKeepsUsersWellFormed(users: seq<User>, next: Id, k: nat, u': User)
    requires UsersWellFormed(users, next) && k < |users| && u'.id == users[k].id
    requires u'.username == users[k].username || forall j :: 0 <= j < |users| ==> users[j].username != u'.username
    requires u'.email == users[k].email || forall j :: 0 <= j < |users| ==> users[j].email != u'.email
    ensures UsersWellFormed(users[k := u'], next)
  {
    var users' := users[k := u'];
    forall a, b | 0 <= a < b < |users'|
      ensures users'[a].id != users'[b].id && users'[a].username != users'[b].username && users'[a].email != users'[b].email
    {
      if a != k && b != k {
        assert users'[a] == users[a] && users'[b] == users[b];
      }
    }
    forall v | v in users' ensures v.id < next {
      var j :| 0 <= j < |users'| && users'[j] == v;
      assert users[j] in users;
    }
  }

  /** The store invariant across a successful update, given the updated state as values. */
  lemma UpdateKeepsInvariant(users: seq<User>, posts: seq<Post>, ns: seq<Notification>, next: Id, k: nat, u': User,
                             rename: bool, users': seq<User>, posts': seq<Post>)
    requires StoreInvariant(users, posts, ns, next) && k < |users| && u'.id == users[k].id
    requires u'.username == users[k].username || forall j :: 0 <= j < |users| ==> users[j].username != u'.username
    requires u'.email == users[k].email || forall j :: 0 <= j < |users| ==> users[j].email != u'.email
    requires rename ==> u'.username != ""
    requires users' == users[k := u']
    requires posts' == if rename then Rename(posts, u'.id, u'.username) else posts
    ensures StoreInvariant(users', posts', ns, next)
  {
    UpdateKeepsUsersWellFormed(users, next, k, u');
    if rename {
      RenameKeepsPostsWellFormed(posts, ns, next, u'.id, u'.username);
    }
  }

  /** PUT /api/users/profile. */
  method UpdateProfile(db: Db, requester: Id, username: Option<string>, email: Option<string>,
                       isEmail: string -> bool, normalize: string -> string)
    returns (r: Reply<Profile>)
    requires db.Valid()
    modifies db
    ensures db.Valid()
    ensures db.notifications == old(db.notifications) && db.nextId == old(db.nextId)
    ensures ProfileInputError(username, email, isEmail).Some? ==>
              r == Err(400, ProfileInputError(username, email, isEmail).value) && unchanged(db)
    ensures ProfileInputError(username, email, isEmail).None? && FindUser(old(db.users), requester).None? ==>
              r == Err(404, MsgUserNotFound) && unchanged(db)
    ensures ProfileInputError(username, email, isEmail).None? && FindUser(old(db.users), requester).Some? ==>
              var k := FindUser(old(db.users), requester).value;
              var u := old(db.users)[k];
              var nameTaken := Renames(u, username) && UsernameHolder(old(db.users), NewName(username)).Some?;
              var emailTaken := ChangesEmail(u, email, normalize) && EmailHolder(old(db.users), NewEmail(email, normalize)).Some?;
              && (nameTaken ==> r == Err(400, MsgUsernameTaken) && unchanged(db))
              && (!nameTaken && emailTaken ==> r == Err(400, MsgEmailTaken) && unchanged(db))
              && (!nameTaken && !emailTaken ==>
                    var u' := Updated(u, username, email, normalize);
                    && db.users == old(db.users)[k := u']
                    && db.posts == (if Renames(u, username) then Rename(old(db.posts), u.id, NewName(username)) else old(db.posts))
                    && db.outbox == old(db.outbox) +
                         (if Renames(u, username) then [UsernameChanged(u.id, u.username, NewName(username))] else [])
                    && r == Ok(200, Profile(u'.id, u'.username, u'.email)))
  {
    var err := ProfileInputError(username, email, isEmail);
    if err.Some? {
      return Err(400, err.value);
    }
    var found := FindUser(db.users, requester);
    if found.None? {
      return Err(404, MsgUserNotFound);
    }
    var k := found.value;
    var u := db.users[k];
    var name := NewName(username);
    if name != "" && name != u.username && UsernameHolder(db.users, name).Some? {
      return Err(400, MsgUsernameTaken);
    }
    var mail := NewEmail(email, normalize);
    if mail != "" && mail != u.email && EmailHolder(db.users, mail).Some? {
      return Err(400, MsgEmailTaken);
    }
    r := SaveProfile(db, k, Updated(u, username, email, normalize), Renames(u, username));
  }

  /** `user.save()`, then, for a new username, the two bulk rewrites and the
   *  `usernameChanged` event; the reply is the saved profile. */
  method SaveProfile(db: Db, k: nat, u': User, rename: bool) returns (r: Reply<Profile>)
    requires db.Valid() && k < |db.users| && u'.id == db.users[k].id
    requires u'.username == db.users[k].username || forall j :: 0 <= j < |db.users| ==> db.users[j].username != u'.username
    requires u'.email == db.users[k].email || forall j :: 0 <= j < |db.users| ==> db.users[j].email != u'.email
    requires rename ==> u'.username != ""
    modifies db
    ensures db.Valid()
    ensures db.notifications == old(db.notifications) && db.nextId == old(db.nextId)
    ensures db.users == old(db.users)[k := u']
    ensures db.posts == if rename then Rename(old(db.posts), u'.id, u'.username) else old(db.posts)
    ensures db.outbox == old(db.outbox) +
              (if rename then [UsernameChanged(u'.id, old(db.users)[k].username, u'.username)] else [])
    ensures r == Ok(200, Profile(u'.id, u'.username, u'.email))
  {
    var oldUsername := db.users[k].username;
    ghost var users0, posts0 := db.users, db.posts;
    db.users := db.users[k := u'];
    if rename {
      db.posts := RenameAuthor(db.posts, u'.id, u'.username);
      db.posts := RenameCommenter(db.posts, u'.id, u'.username);
      db.outbox := db.outbox + [UsernameChanged(u'.id, oldUsername, u'.username)];
    }
    UpdateKeepsInvariant(users0, posts0, db.notifications, db.nextId, k, u', rename, db.users, db.posts);
    r := Ok(200, Profile(u'.id, u'.username, u'.email));
  }

  /** Sending back the current username changes nothing beyond the email: no uniqueness
   *  lookup, no rename, no event. */
  lemma {:induction false} SameUsernameIsNoRename(u: User, username: string)
    requires Trim(username) == u.username
    ensures !Renames(u, Some(username))
  {
  }
}
