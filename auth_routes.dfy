/** Signup and login. The validator chains and the duplicate check are decisions over the
 *  user table; signup then creates the user. Email validation and normalisation and the
 *  password comparison are opaque functions passed in; a token is modelled as the id it
 *  is signed for. */
module AuthRoutes {
  import opened Common
  import opened PostModel
  import opened Store

  const MsgPasswordLength := "Password must be at least 6 characters"
  const MsgPasswordRequired := "Password is required"
  const MsgBadCredentials := "Invalid email or password"
  const MinPasswordLength := 6

  /** `generateToken(id)`: the signing itself is opaque, only the id it carries matters. */
  datatype Token = Token(userId: Id)

  /** The body of a successful signup or login. */
  datatype Session = Session(id: Id, username: string, email: string, token: Token)

  function SessionOf(u: User): (s: Session)
    ensures s.id == u.id && s.username == u.username && s.email == u.email && s.token.userId == u.id
  {
    Session(u.id, u.username, u.email, Token(u.id))
  }

  // ---------------------------------------------------------------- signup

  /** The first failing check of the signup chains, in declaration order: trimmed
   *  username of 3 to 30 characters, a valid email, a password of at least 6 characters.
   *  A missing field reads as ''. */
  function SignupInputError(username: string, email: string, password: string, isEmail: string -> bool): (r: Option<string>)
    ensures r.None? <==> UsernameLengthOk(Trim(username)) && isEmail(email) && |password| >= MinPasswordLength
    ensures !UsernameLengthOk(Trim(username)) ==> r == Some(MsgUsernameLength)
    ensures UsernameLengthOk(Trim(username)) && !isEmail(email) ==> r == Some(MsgInvalidEmail)
    ensures UsernameLengthOk(Trim(username)) && isEmail(email) && |password| < MinPasswordLength ==> r == Some(MsgPasswordLength)
  {
    if !UsernameLengthOk(Trim(username)) then Some(MsgUsernameLength)
    else if !isEmail(email) then Some(MsgInvalidEmail)
    else if |password| < MinPasswordLength then Some(MsgPasswordLength)
    else None
  }

  /** `User.findOne({ $or: [{ email }, { username }] })`: the first user, in collection
   *  order, holding either value. */
  function Existing(users: seq<User>, name: string, mail: string): (r: Option<nat>)
    ensures r.Some? ==> r.value < |users| && (users[r.value].email == mail || users[r.value].username == name)
    ensures r.Some? ==> forall j :: 0 <= j < r.value ==> users[j].email != mail && users[j].username != name
    ensures r.None? <==> forall j :: 0 <= j < |users| ==> users[j].email != mail && users[j].username != name
  {
    FindFirst(users, (u: User) => u.email == mail || u.username == name)
  }

  /** The duplicate check: the user found is compared on its email first. */
  function DuplicateError(users: seq<User>, name: string, mail: string): (r: Option<string>)
    ensures r.None? <==> Existing(users, name, mail).None?
    ensures r.Some? ==> r.value == (if users[Existing(users, name, mail).value].email == mail then MsgEmailTaken else MsgUsernameTaken)
  {
    var found := Existing(users, name, mail);
    if found.Some? && users[found.value].email == mail then Some(MsgEmailTaken)
    else if found.Some? && users[found.value].username == name then Some(MsgUsernameTaken)
    else None
  }

  /** When the same user holds both the email and the username, the email is reported. */
  lemma {:induction false} EmailReportedFirst(users: seq<User>, name: string, mail: string, k: nat)
    requires k < |users| && users[k].email == mail
    requires forall j :: 0 <= j < k ==> users[j].username != name
    ensures DuplicateError(users, name, mail) == Some(MsgEmailTaken)
  {
    var found := Existing(users, name, mail);
    assert found.Some?;
    if found.value < k {
      assert users[found.value].username != name;
    }
  }

  /** A username collision alone is reported as such. */
  lemma {:induction false} UsernameOnlyCollision(users: seq<User>, name: string, mail: string)
    requires forall j :: 0 <= j < |users| ==> users[j].email != mail
    requires exists j :: 0 <= j < |users| && users[j].username == name
    ensures DuplicateError(users, name, mail) == Some(MsgUsernameTaken)
  {
    var j :| 0 <= j < |users| && users[j].username == name;
    assert Existing(users, name, mail).Some?;
  }

  /** The precedence is per document: when the username belongs to one user and the
   *  email to a later one, findOne returns the first and the reply names the username,
   *  although the email is registered too. */
  lemma CollisionOrderDecides()
    ensures var users := [User(1, "bob", "bob@example.com", "p1"), User(2, "carol", "carol@example.com", "p2")];
            DuplicateError(users, "bob", "carol@example.com") == Some(MsgUsernameTaken)
  {
    var users := [User(1, "bob", "bob@example.com", "p1"), User(2, "carol", "carol@example.com", "p2")];
    assert users[0].username == "bob";
    assert Existing(users, "bob", "carol@example.com") == Some(0);
  }

  /** Adding a user whose id, username and email are all new keeps the store invariant,
   *  the allocator moving past the new id. */
  lemma AddUserKeepsInvariant(users: seq<User>, posts: seq<Post>, ns: seq<Notification>, next: Id, u: User,
                              users': seq<User>, next': Id)
    requires StoreInvariant(users, posts, ns, next) && u.id == next
    requires forall j :: 0 <= j < |users| ==> users[j].email != u.email && users[j].username != u.username
    requires users' == users + [u] && next' == next + 1
    ensures StoreInvariant(users', posts, ns, next')
  {
    forall a, b | 0 <= a < b < |users'|
      ensures users'[a].id != users'[b].id && users'[a].username != users'[b].username && users'[a].email != users'[b].email
    {
      assert users'[a] == users[a];
      if b < |users| {
        assert users'[b] == users[b];
      } else {
        assert users[a] in users;
      }
    }
  }

  /** POST /api/auth/signup. */
  method Signup(db: Db, username: string, email: string, password: string,
                isEmail: string -> bool, normalize: string -> string)
    returns (r: Reply<Session>)
    requires db.Valid()
    modifies db
    ensures db.Valid()
    ensures db.posts == old(db.posts) && db.notifications == old(db.notifications) && db.outbox == old(db.outbox)
    ensures SignupInputError(username, email, password, isEmail).Some? ==>
              r == Err(400, SignupInputError(username, email, password, isEmail).value) && unchanged(db)
    ensures SignupInputError(username, email, password, isEmail).None? &&
            DuplicateError(old(db.users), Trim(username), normalize(email)).Some? ==>
              r == Err(400, DuplicateError(old(db.users), Trim(username), normalize(email)).value) && unchanged(db)
    ensures SignupInputError(username, email, password, isEmail).None? &&
            DuplicateError(old(db.users), Trim(username), normalize(email)).None? ==>
              var u := User(old(db.nextId), Trim(username), normalize(email), password);
              && db.users == old(db.users) + [u]
              && db.nextId == old(db.nextId) + 1
              && r == Ok(201, SessionOf(u))
  {
    var err := SignupInputError(username, email, password, isEmail);
    if err.Some? {
      return Err(400, err.value);
    }
    var name := Trim(username);
    var mail := normalize(email);
    var duplicate := DuplicateError(db.users, name, mail);
    if duplicate.Some? {
      return Err(400, duplicate.value);
    }
    var user := User(db.nextId, name, mail, password);
    CreateUser(db, user);
    r := Ok(201, SessionOf(user));
  }

  /** `User.create`: appends a user whose id is the next one and whose username and email
   *  nobody holds. */
  method CreateUser(db: Db, user: User)
    requires db.Valid() && user.id == db.nextId
    requires forall j :: 0 <= j < |db.users| ==> db.users[j].email != user.email && db.users[j].username != user.username
    modifies db
    ensures db.Valid()
    ensures db.users == old(db.users) + [user] && db.nextId == old(db.nextId) + 1
    ensures db.posts == old(db.posts) && db.notifications == old(db.notifications) && db.outbox == old(db.outbox)
  {
    ghost var users0, next0 := db.users, db.nextId;
    db.users := db.users + [user];
    db.nextId := db.nextId + 1;
    AddUserKeepsInvariant(users0, db.posts, db.notifications, next0, user, db.users, db.nextId);
  }

  // ---------------------------------------------------------------- login

  /** The first failing check of the login chains: a valid email, then a non-empty password. */
  function LoginInputError(email: string, password: string, isEmail: string -> bool): (r: Option<string>)
    ensures r.None? <==> isEmail(email) && password != ""
    ensures !isEmail(email) ==> r == Some(MsgInvalidEmail)
    ensures isEmail(email) && password == "" ==> r == Some(MsgPasswordRequired)
  {
    if !isEmail(email) then Some(MsgInvalidEmail)
    else if password == "" then Some(MsgPasswordRequired)
    else None
  }

  /** POST /api/auth/login. `comparePassword(candidate, stored)` is the opaque hash check. */
  function Login(users: seq<User>, email: string, password: string, isEmail: string -> bool,
                 normalize: string -> string, comparePassword: (string, string) -> bool): (r: Reply<Session>)
    ensures LoginInputError(email, password, isEmail).Some? ==>
              r == Err(400, LoginInputError(email, password, isEmail).value)
    ensures r.Ok? <==>
              && LoginInputError(email, password, isEmail).None?
              && exists k :: 0 <= k < |users| && users[k].email == normalize(email) && comparePassword(password, users[k].password)
                               && forall j :: 0 <= j < k ==> users[j].email != normalize(email)
    ensures r.Ok? ==>
              && r.status == 200
              && exists k :: 0 <= k < |users| && users[k].email == normalize(email) && comparePassword(password, users[k].password)
                               && (forall j :: 0 <= j < k ==> users[j].email != normalize(email))
                               && r.body == SessionOf(users[k])
    ensures r.Err? && LoginInputError(email, password, isEmail).None? ==> r == Err(401, MsgBadCredentials)
  {
    var err := LoginInputError(email, password, isEmail);
    if err.Some? then Err(400, err.value)
    else
      var found := FindFirst(users, (u: User) => u.email == normalize(email));
      if found.None? then Err(401, MsgBadCredentials)
      else
        var u := users[found.value];
        if !comparePassword(password, u.password) then Err(401, MsgBadCredentials)
        else Ok(200, SessionOf(u))
  }

  /** An unknown email and a wrong password for a known one produce the same reply. */
  lemma {:induction false} LoginFailuresIndistinguishable(users: seq<User>, unknown: string, known: string, password: string,
                                                        isEmail: string -> bool, normalize: string -> string,
                                                        comparePassword: (string, string) -> bool)
    requires isEmail(unknown) && isEmail(known) && password != ""
    requires forall j :: 0 <= j < |users| ==> users[j].email != normalize(unknown)
    requires forall j :: 0 <= j < |users| && users[j].email == normalize(known) ==> !comparePassword(password, users[j].password)
    ensures Login(users, unknown, password, isEmail, normalize, comparePassword) ==
            Login(users, known, password, isEmail, normalize, comparePassword)
    ensures Login(users, unknown, password, isEmail, normalize, comparePassword) == Err(401, MsgBadCredentials)
  {
  }

  /** A user created by signup can log in with the same email and password, provided the
   *  stored credential verifies against that password. */
  lemma {:induction false} SignupThenLogin(users: seq<User>, next: Id, username: string, email: string, password: string,
                                         isEmail: string -> bool, normalize: string -> string,
                                         comparePassword: (string, string) -> bool)
    requires SignupInputError(username, email, password, isEmail).None?
    requires DuplicateError(users, Trim(username), normalize(email)).None?
    requires comparePassword(password, password)
    ensures var u := User(next, Trim(username), normalize(email), password);
            Login(users + [u], email, password, isEmail, normalize, comparePassword) == Ok(200, SessionOf(u))
  {
    var u := User(next, Trim(username), normalize(email), password);
    var users' := users + [u];
    var found := FindFirst(users', (v: User) => v.email == normalize(email));
    assert users'[|users|] == u;
    assert forall j :: 0 <= j < |users| ==> users'[j] == users[j];
  }
}
