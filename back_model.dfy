/** Entities of the PetPet backend (back/index.ts), the reply reasons and
    their HTTP statuses, the request guards (session check, post lookup),
    credential checking, and the registration and login decisions.

    Foreign libraries are abstract here: a bcrypt digest is a value that
    only `Compare` looks into, and the outcome of jwt verification is
    passed in as `decoded`. */
module BackModel {
  import opened Common

  // ---------------------------------------------------------------- entities

  /** A stored password digest. `Bcrypt(cost, plain)` stands for the
      one-way output of bcrypt.hash(plain, cost); `Unparsable(raw)` is a
      column value bcrypt cannot read, on which the comparison is modelled
      as throwing (the handler treats a throw and a mismatch alike). */
  datatype Digest = Bcrypt(cost: nat, plain: string) | Unparsable(raw: string)

  /** `password` is None when the column is null. */
  datatype User = User(id: int, email: string, username: string, password: Option<Digest>)

  datatype Post = Post(id: int, imagePath: string, description: string,
                       createdAt: int, updatedAt: int, userId: int)

  /** One row of the userLike table. */
  datatype Like = Like(userId: int, postId: int)

  /** The claims signed into a session token. */
  datatype Claims = Claims(id: int, username: string)

  /** A signed session token: claims and the signer's expiry option. */
  datatype Token = Token(claims: Claims, expiresIn: string)

  /** What the login reply returns about the user. */
  datatype UserInfo = UserInfo(id: int, username: string, email: string)

  /** No two rows of the table share an id (the primary keys). */
  predicate UniquePostIds(posts: seq<Post>) {
    forall i, j :: 0 <= i < j < |posts| ==> posts[i].id != posts[j].id
  }

  predicate UniqueUserIds(users: seq<User>) {
    forall i, j :: 0 <= i < j < |users| ==> users[i].id != users[j].id
  }

  const BcryptCost: nat := 10
  const SessionLifetime: string := "30d"
  const PublicPrefix: string := "/public/"
  const UploadDir: string := "uploads/"

  // ----------------------------------------------------------------- replies

  /** The error (or success) message a handler answers with. */
  datatype Reason =
    | Success
    | MissingFields       // register / login: a required field is falsy
    | UserExists          // register: username taken
    | WrongCredentials    // login: no user for these credentials
    | NotLoggedIn         // verifyToken: no cookie token
    | Unauthorized        // verifyToken: jwt.verify threw
    | PostIdMissing       // findPost: falsy postId
    | PostNotFound        // findPost: no row with that id
    | MissingImage        // create post: no uploaded file
    | NotOwner            // delete post: requester is not the owner
    | DeleteFailed        // delete post: unlink or row delete threw
    | AlreadyLiked        // like: the pair exists
    | NotLiked            // unlike: the pair does not exist
    | ServerError         // register / like / unlike: the store threw

  function Status(r: Reason): int {
    match r
    case Success => 200
    case MissingFields => 400
    case UserExists => 400
    case MissingImage => 400
    case WrongCredentials => 403
    case NotLoggedIn => 401
    case Unauthorized => 401
    case NotOwner => 401
    case AlreadyLiked => 401
    case NotLiked => 401
    case PostIdMissing => 404
    case PostNotFound => 404
    case DeleteFailed => 500
    case ServerError => 500
  }

  /** JavaScript truthiness of an optional string field of a request. */
  predicate Present(s: Option<string>) {
    s.Some? && s.value != ""
  }

  /** JavaScript truthiness of an optional numeric `postId`. */
  predicate PresentId(id: Option<int>) {
    id.Some? && id.value != 0
  }

  // ------------------------------------------------------------------ guards

  /** The verifyToken middleware. `decoded` is what jwt.verify yields for
      the cookie token (None when it throws: bad signature or expired). */
  function VerifyToken(token: Option<string>, decoded: Option<Claims>): (r: Result<Claims, Reason>)
    ensures r.Ok? <==> Present(token) && decoded.Some?
    ensures r.Ok? ==> r.value == decoded.value
    ensures r.Err? ==> Status(r.error) == 401
    ensures !Present(token) ==> r == Err(NotLoggedIn)
  {
    if !Present(token) then Err(NotLoggedIn)
    else if decoded.None? then Err(Unauthorized)
    else Ok(decoded.value)
  }

  function PostById(posts: seq<Post>, id: int): (r: Option<Post>)
    ensures r.Some? ==> r.value in posts && r.value.id == id
    ensures r.None? <==> forall p :: p in posts ==> p.id != id
  {
    Find(posts, (p: Post) => p.id == id)
  }

  /** The findPost middleware. */
  function FindPost(posts: seq<Post>, postId: Option<int>): (r: Result<Post, Reason>)
    ensures r.Ok? ==> PresentId(postId) && r.value in posts && r.value.id == postId.value
    ensures r == Err(PostIdMissing) <==> !PresentId(postId)
    ensures r == Err(PostNotFound) <==> PresentId(postId) && forall p :: p in posts ==> p.id != postId.value
    ensures r.Err? ==> Status(r.error) == 404
  {
    if !PresentId(postId) then Err(PostIdMissing)
    else match PostById(posts, postId.value)
      case None => Err(PostNotFound)
      case Some(p) => Ok(p)
  }

  /** verifyToken followed by findPost, as the post/like routes chain them. */
  function PostGuard(token: Option<string>, decoded: Option<Claims>, posts: seq<Post>, postId: Option<int>)
    : (r: Result<(Claims, Post), Reason>)
    ensures r.Err? ==> Status(r.error) == 401 || Status(r.error) == 404
    ensures r.Ok? ==> decoded == Some(r.value.0) && r.value.1 in posts && postId == Some(r.value.1.id)
  {
    match VerifyToken(token, decoded)
    case Err(e) => Err(e)
    case Ok(c) =>
      match FindPost(posts, postId)
      case Err(e) => Err(e)
      case Ok(p) => Ok((c, p))
  }

  /** The session check decides before the post lookup: a request without
      a valid session is answered 401 whatever its postId and whatever the
      posts table holds; only an authenticated request can get 404; and a
      request that passes carries the decoded claims and the post stored
      under the requested id. */
  lemma GuardOrder(token: Option<string>, decoded: Option<Claims>, posts: seq<Post>, postId: Option<int>)
    ensures var g := PostGuard(token, decoded, posts, postId);
      && (!Present(token) ==> g == Err(NotLoggedIn))
      && (Present(token) && decoded.None? ==> g == Err(Unauthorized))
      && (g.Err? && Status(g.error) == 404 ==> Present(token) && decoded.Some?)
      && (g.Err? && Status(g.error) == 404 ==> g == Err(if PresentId(postId) then PostNotFound else PostIdMissing))
      && (g.Ok? <==> Present(token) && decoded.Some? && PresentId(postId)
                     && exists p :: p in posts && p.id == postId.value)
      && (g.Ok? ==> g.value.0 == decoded.value && g.value.1 in posts && g.value.1.id == postId.value)
  {
    var g := PostGuard(token, decoded, posts, postId);
    if g.Ok? {
      assert g.value.1 in posts && g.value.1.id == postId.value;
    }
  }

  /** The GET /me handler: the session claims, or the guard's 401. */
  function Me(token: Option<string>, decoded: Option<Claims>): (r: Result<Claims, Reason>)
    ensures r.Ok? <==> Present(token) && decoded.Some?
    ensures r.Ok? ==> decoded == Some(r.value)
    ensures r.Err? ==> Status(r.error) == 401
  {
    VerifyToken(token, decoded)
  }

  // ------------------------------------------------------------- credentials

  datatype CompareOutcome = Match | Mismatch | Threw

  /** bcrypt reads at most the first 72 bytes of a password; the rest is
      ignored when hashing and when comparing. */
  const BcryptMaxInput := 72

  function BcryptInput(s: string): (r: string)
    ensures |r| <= BcryptMaxInput && r <= s
    ensures |r| == if |s| <= BcryptMaxInput then |s| else BcryptMaxInput
    ensures |s| <= BcryptMaxInput ==> r == s
  {
    if |s| <= BcryptMaxInput then s else s[..BcryptMaxInput]
  }

  /** bcrypt.compare(plain, stored): a match exactly when the two
      passwords agree on what bcrypt reads of them; modelled as throwing
      on an unparsable digest. */
  function Compare(plain: string, stored: Digest): (r: CompareOutcome)
    ensures r == Threw <==> stored.Unparsable?
    ensures stored.Bcrypt? ==> (r == Match <==> BcryptInput(plain) == BcryptInput(stored.plain))
  {
    match stored
    case Bcrypt(_, p) => if BcryptInput(p) == BcryptInput(plain) then Match else Mismatch
    case Unparsable(_) => Threw
  }

  /** Two passwords sharing their first 72 characters compare equal, so a
      long password is also accepted with any other ending. */
  lemma LongPasswordSuffixIgnored(password: string, suffix: string)
    requires |password| >= BcryptMaxInput
    ensures Compare(password + suffix, Bcrypt(BcryptCost, password)) == Match
  {
    assert (password + suffix)[..BcryptMaxInput] == password[..BcryptMaxInput];
  }

  /** JavaScript truthiness of the stored password column. */
  predicate HasPassword(u: User) {
    u.password.Some? && u.password.value != Unparsable("")
  }

  /** user.findFirst({ where: { email } }): the first user stored under
      the email, since emails may repeat. */
  function UserByEmail(users: seq<User>, email: string): (r: Option<User>)
    ensures r.Some? ==> r.value in users && r.value.email == email
    ensures r.Some? ==> exists i :: 0 <= i < |users| && users[i] == r.value
                                    && forall j :: 0 <= j < i ==> users[j].email != email
    ensures r.None? <==> forall u :: u in users ==> u.email != email
  {
    Find(users, (u: User) => u.email == email)
  }

  /** verifyPasswordUser: the first user stored under that email, provided
      the password compares equal to its digest; no user otherwise. */
  function VerifyPasswordUser(users: seq<User>, email: Option<string>, password: Option<string>): (r: Option<User>)
    ensures r.Some? ==> Present(email) && Present(password)
    ensures r.Some? ==> r.value in users && r.value.email == email.value && HasPassword(r.value)
    ensures r.Some? ==> Compare(password.value, r.value.password.value) == Match
  {
    if !Present(email) || !Present(password) then None
    else match UserByEmail(users, email.value)
      case None => None
      case Some(u) =>
        if !HasPassword(u) then None
        else match Compare(password.value, u.password.value)
          case Match => Some(u)
          case Mismatch => None
          case Threw => None
  }

  /** The credential check fails closed: it yields a user only when both
      fields are present, that user is the first one stored under the
      email, it has a stored password, and the comparison matched; every
      other case (missing field, unknown email, no stored password,
      mismatch, comparison error) gives no user. */
  lemma CredentialCheckFailsClosed(users: seq<User>, email: Option<string>, password: Option<string>)
    ensures var r := VerifyPasswordUser(users, email, password);
      r.Some? <==>
        && Present(email) && Present(password)
        && UserByEmail(users, email.value).Some?
        && HasPassword(UserByEmail(users, email.value).value)
        && Compare(password.value, UserByEmail(users, email.value).value.password.value) == Match
    ensures var r := VerifyPasswordUser(users, email, password);
      r.Some? ==> (r.value in users && r.value.email == email.value
                   && r.value == UserByEmail(users, email.value).value)
  {
  }

  /** The reply of POST /login: a token and the user's public fields, or
      a failure reason. */
  datatype LoginReply = LoggedIn(token: Token, user: UserInfo) | LoginFailed(reason: Reason)

  function Login(users: seq<User>, email: Option<string>, password: Option<string>): (r: LoginReply)
    ensures r.LoginFailed? ==> r.reason == MissingFields || r.reason == WrongCredentials
    ensures r.LoggedIn? ==> r.token.expiresIn == SessionLifetime
  {
    if !Present(email) || !Present(password) then LoginFailed(MissingFields)
    else match VerifyPasswordUser(users, email, password)
      case None => LoginFailed(WrongCredentials)
      case Some(u) =>
        LoggedIn(Token(Claims(u.id, u.username), SessionLifetime), UserInfo(u.id, u.username, u.email))
  }

  /** Login answers 400 exactly when a field is missing, 403 with no token
      exactly when the credential check yields no user, and otherwise signs
      {id, username} of that user with a 30-day lifetime. */
  lemma LoginOutcome(users: seq<User>, email: Option<string>, password: Option<string>)
    ensures var r := Login(users, email, password);
      && (r == LoginFailed(MissingFields) <==> !Present(email) || !Present(password))
      && (r == LoginFailed(WrongCredentials) <==>
            Present(email) && Present(password) && VerifyPasswordUser(users, email, password).None?)
      && (r.LoggedIn? ==>
            var u := VerifyPasswordUser(users, email, password).value;
            && u in users && u.email == email.value
            && r.token == Token(Claims(u.id, u.username), "30d")
            && r.user == UserInfo(u.id, u.username, u.email))
  {
    CredentialCheckFailsClosed(users, email, password);
  }

  // ------------------------------------------------------------ registration

  /** String.prototype.toLowerCase, on the ASCII letters. */
  function LowerChar(c: char): char {
    if 'A' <= c <= 'Z' then (c as int + 32) as char else c
  }

  function Lower(s: string): (r: string)
    ensures |r| == |s|
  {
    seq(|s|, i requires 0 <= i < |s| => LowerChar(s[i]))
  }

  function UserByUsername(users: seq<User>, username: string): (r: Option<User>)
    ensures r.Some? ==> r.value in users && r.value.username == username
    ensures r.None? <==> forall u :: u in users ==> u.username != username
  {
    Find(users, (u: User) => u.username == username)
  }

  /** The answer of POST /register, before any insert. `storeFails` is
      whether the insert throws. */
  function RegisterDecision(users: seq<User>, email: Option<string>, username: Option<string>,
                            password: Option<string>, storeFails: bool): (r: Reason)
    ensures r == MissingFields || r == UserExists || r == ServerError || r == Success
    ensures r == Success ==> Present(email) && Present(username) && Present(password) && !storeFails
    ensures r == Success ==> forall u :: u in users ==> u.username != Lower(username.value)
  {
    if !Present(email) || !Present(username) || !Present(password) then MissingFields
    else if UserByUsername(users, Lower(username.value)).Some? then UserExists
    else if storeFails then ServerError
    else Success
  }

  /** The user row a successful registration inserts: the username as
      given, the password only as its bcrypt digest. */
  function NewUser(id: int, email: string, username: string, password: string): User {
    User(id, email, username, Some(Bcrypt(BcryptCost, password)))
  }

  /** Registration answers 400 when a field is missing or when a stored
      username equals the lowercased input, 500 when the insert throws,
      and 200 otherwise; the email takes no part in the decision. */
  lemma RegisterOutcome(users: seq<User>, email: Option<string>, username: Option<string>,
                        password: Option<string>, storeFails: bool)
    ensures var r := RegisterDecision(users, email, username, password, storeFails);
      && (r == MissingFields <==> !Present(email) || !Present(username) || !Present(password))
      && (r == UserExists <==>
            Present(email) && Present(username) && Present(password)
            && exists u :: u in users && u.username == Lower(username.value))
      && (r == Success <==>
            Present(email) && Present(username) && Present(password) && !storeFails
            && forall u :: u in users ==> u.username != Lower(username.value))
      && (r == ServerError <==>
            Present(email) && Present(username) && Present(password) && storeFails
            && forall u :: u in users ==> u.username != Lower(username.value))
      && (r == ServerError <==> Status(r) == 500)
  {
    var r := RegisterDecision(users, email, username, password, storeFails);
    if Present(email) && Present(username) && Present(password) {
      var m := UserByUsername(users, Lower(username.value));
      if m.Some? { assert m.value in users; }
    }
  }

  /** The username check compares stored usernames with the LOWERCASED
      input, while the row keeps the username as given. With the lookup's
      equality taken as exact and no unique index on the username column,
      a second "Alice" is admitted next to a stored "Alice". */
  lemma MixedCaseUsernameAdmittedTwice()
    ensures var users := [NewUser(1, "a@x.com", "Alice", "Passw0rd!")];
      RegisterDecision(users, Some("b@x.com"), Some("Alice"), Some("Passw0rd!"), false) == Success
  {
    var users := [NewUser(1, "a@x.com", "Alice", "Passw0rd!")];
    assert Lower("Alice")[0] == 'a';
    assert Lower("Alice") != users[0].username;
  }

  /** A lowercase username collides with a stored lowercase one whatever
      the case of the input, and the email is not checked for uniqueness. */
  lemma RegisterScenario()
    ensures var users := [NewUser(1, "a@x.com", "alice", "Passw0rd!")];
      && RegisterDecision(users, Some("c@x.com"), Some("ALICE"), Some("x"), false) == UserExists
      && RegisterDecision(users, Some("a@x.com"), Some("bob"), Some("x"), false) == Success
  {
    var users := [NewUser(1, "a@x.com", "alice", "Passw0rd!")];
    assert Lower("ALICE") == "alice";
    assert users[0].username == Lower("ALICE");
    var lb := Lower("bob");
    assert lb[0] == 'b';
    assert forall u :: u in users ==> u.username != lb;
  }

  /** A registered user can log in with the password it registered with,
      and not with another one. */
  lemma RegisterThenLogin(users: seq<User>, id: int, email: string, username: string, password: string, other: string)
    requires email != "" && password != "" && other != "" && BcryptInput(other) != BcryptInput(password)
    requires forall u :: u in users ==> u.email != email
    ensures var users' := users + [NewUser(id, email, username, password)];
      && Login(users', Some(email), Some(password))
           == LoggedIn(Token(Claims(id, username), SessionLifetime), UserInfo(id, username, email))
      && Login(users', Some(email), Some(other)) == LoginFailed(WrongCredentials)
  {
    var users' := users + [NewUser(id, email, username, password)];
    var i := FindIndex(users', (u: User) => u.email == email);
    assert users'[|users|].email == email;
    assert forall j :: 0 <= j < |users| ==> users'[j] in users;
    assert i.Some? && i.value == |users|;
    assert UserByEmail(users', email) == Some(NewUser(id, email, username, password));
  }

  // ------------------------------------------------------------ post images

  /** Where multer writes an upload named `fileName`. */
  function UploadPath(fileName: string): string {
    UploadDir + fileName
  }

  /** The image_path a new post records for an upload named `fileName`. */
  function ImagePath(fileName: string): string {
    PublicPrefix + fileName
  }

  /** The path the delete handler passes to fs.unlink, as written: the
      post's image_path, a URL path under /public/. */
  function UnlinkPathAsWritten(p: Post): string {
    p.imagePath
  }

  /** The stored file behind a post: its image_path with the /public/
      URL prefix replaced by the upload directory. */
  function StoredFilePath(p: Post): (r: string)
    ensures forall name :: p.imagePath == ImagePath(name) ==> r == UploadPath(name) && IsUploadPath(r)
  {
    if |PublicPrefix| <= |p.imagePath| && p.imagePath[..|PublicPrefix|] == PublicPrefix
    then UploadPath(p.imagePath[|PublicPrefix|..])
    else p.imagePath
  }

  predicate IsUploadPath(f: string) {
    |UploadDir| <= |f| && f[..|UploadDir|] == UploadDir
  }

  /** A URL path under /public/, as every stored image_path is. */
  predicate IsPublicPath(f: string) {
    |PublicPrefix| <= |f| && f[..|PublicPrefix|] == PublicPrefix
  }

  /** No path is both under /public/ and in the upload directory. */
  lemma PublicIsNotUpload(f: string)
    requires IsPublicPath(f)
    ensures !IsUploadPath(f)
  {
    assert f[0] == PublicPrefix[0];
    assert |f| >= |UploadDir| ==> f[..|UploadDir|][0] == f[0];
  }
}
