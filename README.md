# Photo-sharing app: backend routes and login page, in Dafny

This project models two parts of a small photo-sharing application and
proves properties of them:

- **The Express backend** (`back/index.ts`). It covers:
  - the session guard (`verifyToken`) and the post lookup (`findPost`);
  - the credential check (`verifyPasswordUser`);
  - the handlers for register, login, `/me`, the posts listing, post
    creation and deletion, like and unlike, the caller's liked posts and
    the notification feed.
- **The login/register page** (`front/src/pages/Login.tsx`). It covers:
  - the four password rules and the email regular expression;
  - the two validators;
  - the input, register, login and toggle handlers.

How the backend is modelled:

- The three store tables (`user`, `post`, `userLike`) and the upload
  directory are fields of one `Store` class, kept in store order. Each
  mutating route is a method of that class.
- Each method answers with a `Reason`. `Status` maps a `Reason` to the HTTP
  code the handler sends.
- The store's invariant `Valid()` holds after every route. It requires:
  - unique primary keys;
  - at most one like row per (user, post) pair;
  - every like's user exists;
  - the autoincrement counters are ahead of every id;
  - every stored file lies in `uploads/`.
- The read-only routes are functions over the tables, except the posts
  listing. The source builds that listing with a loop, so it is a method
  with loop invariants.
- Outside effects become parameters:
  - `decoded` is what `jwt.verify` yields for the cookie (`None` when it
    throws);
  - `storeFails`, `rowDeleteFails` and `unlinkFails` say whether the store
    or the file system throws at that step;
  - `now` is the clock;
  - `upload` is the file name multer produced.
- bcrypt is modelled as a digest that records its cost and its plaintext.
  `Compare` is modelled as throwing on an unparsable stored value (the
  handler treats a throw and a mismatch alike), and otherwise matches
  exactly when the two passwords agree on the first 72 characters, the
  part bcrypt reads.
- `DeletePost` unlinks the post's `image_path` exactly as the handler does,
  which never finds the uploaded file (see "## Findings").
  `DeletePostCorrected` unlinks the stored file instead.

How the page is modelled:

- The page is a `Page` class. Each React state hook is a field, each
  setter an assignment, and each handler a method.
- A handler's server answers are parameters of type `Response`.
- The requests a handler sends are returned.
- A handler's `alert` is returned as a flag.

## Where the code and the design description differ

The model follows the code in each case below.

- **Username check.** The registration check compares the stored usernames
  with the **lowercased** input, but the row keeps the username as typed.
  - The model takes the lookup's string equality as exact and assumes no
    unique index on the username column; the database schema and provider
    are not part of this model. Under those assumptions a stored "Alice"
    does not block a second "Alice"
    (`BackModel.MixedCaseUsernameAdmittedTwice`).
  - A stored "alice" does block "ALICE".
- **Email uniqueness.** Registration does not check the email for
  uniqueness (`BackModel.RegisterScenario`). Login takes the first user
  stored under an email.
- **Deleting a post.** The handler deletes only the post row. What happens
  to its like rows depends on the schema's referential action, which is not
  part of this model. The model assumes the row delete neither cascades nor
  is restricted, so the like rows stay.

## Model

| member | source | states |
|---|---|---|
| BackModel.VerifyToken | back/index.ts:77-93 | passes exactly when a cookie token is present and verifies, yielding its claims; no token gives "Not logged in", a failed verify "Unauthorized", both 401 |
| BackModel.FindPost | back/index.ts:95-110 | a falsy postId gives 404 "missing"; no row with that id gives 404 "not found"; otherwise the stored post with that id |
| BackModel.PostGuard | back/index.ts:77-110 | the verifyToken-then-findPost chain fails only with a 401 or a 404, and passes with the decoded claims and a stored post carrying the requested id |
| BackModel.GuardOrder | back/index.ts:77-110 | for PostGuard: without a valid session the answer is 401 whatever the postId; a 404 only reaches an authenticated caller; it passes iff the session is valid, the postId is present and a post with that id is stored |
| BackModel.Me | back/index.ts:181-184 | /me answers the session claims exactly when a cookie token is present and verifies, and 401 otherwise |
| BackModel.PostById | back/index.ts:100-104 | the found post is in the table with the requested id; none exactly when no row has that id |
| BackModel.UserByEmail | back/index.ts:58-62 | the found user is the first one stored under the email (emails may repeat); none exactly when no user has it |
| BackModel.BcryptInput | back/index.ts:69 | what bcrypt reads of a password: the password itself up to 72 characters, otherwise its first 72 |
| BackModel.Compare | back/index.ts:68-74 | the comparison is modelled as throwing exactly on an unparsable digest (the handler treats a throw and a mismatch alike), and otherwise matches iff the two passwords agree on their first 72 characters |
| BackModel.LongPasswordSuffixIgnored | back/index.ts:69 | a stored password of 72 or more characters also matches itself followed by any suffix |
| BackModel.VerifyPasswordUser | back/index.ts:49-75 | a user is yielded only for present fields, and it is stored under that email, has a password, and compares equal to it |
| BackModel.CredentialCheckFailsClosed | back/index.ts:49-75 | VerifyPasswordUser yields a user iff both fields are present, a user is stored under the email, it has a password, and bcrypt compares equal; a comparison error, a missing field or a missing password gives no user; the user yielded is the first stored under the email |
| BackModel.Login | back/index.ts:149-179 | login fails only with "missing fields" or "wrong credentials", and a token it issues lasts "30d" |
| BackModel.LoginOutcome | back/index.ts:149-179 | Login answers 400 iff a field is missing, 403 iff the credential check yields no user, and otherwise signs {id, username} of that user for "30d" and returns id, username and email |
| BackModel.UserByUsername | back/index.ts:124-128 | the found user has exactly that username; none iff no user has it |
| BackModel.RegisterDecision | back/index.ts:112-147 | registration answers one of missing fields, user exists, server error or success, and succeeds only with all fields present, no store failure, and no stored username equal to the lowercased input |
| BackModel.RegisterOutcome | back/index.ts:112-147 | RegisterDecision answers 400 iff a field is missing or a stored username equals the lowercased input, 200 iff all fields are present, no such username is stored and the insert succeeds, and 500 iff all fields are present, no such username is stored and the insert throws; the email takes no part |
| BackModel.MixedCaseUsernameAdmittedTwice | back/index.ts:124-139 | with "Alice" stored, a second "Alice" is admitted, because the lookup uses the lowercased input |
| BackModel.RegisterScenario | back/index.ts:116-140 | with "alice" stored, "ALICE" is refused as existing, and a new username with an already used email is admitted |
| BackModel.RegisterThenLogin | back/index.ts:133-166 | after a user is registered under a fresh email, login with that password returns its token and public fields, and login with a password differing from it within bcrypt's first 72 characters is refused as wrong credentials |
| BackModel.StoredFilePath | back/index.ts:19-25 | for any upload name, the file behind image_path "/public/"+name is "uploads/"+name, inside the upload directory |
| BackModel.PublicIsNotUpload | back/index.ts:226 | no path under "/public/" lies in the upload directory |
| BackLedger.CountLikes | back/index.ts:190-194 | the count is at most the table size and is zero iff no like row names the post |
| BackLedger.RemoveLike | back/index.ts:331-338 | the rows left are exactly the rows other than the deleted pair |
| BackLedger.CountAfterInsert | back/index.ts:296-301 | inserting a like row raises its post's count by one and leaves every other post's count unchanged |
| BackLedger.InsertKeepsNoDup | back/index.ts:286-301 | inserting a pair that the findFirst found absent keeps at most one row per pair |
| BackLedger.RemoveAbsentLike | back/index.ts:331-338 | deleting a pair with no row leaves the table unchanged |
| BackLedger.RemoveExactlyOne | back/index.ts:321-338 | deleting a present pair removes exactly one row: the multiset loses one copy of it and the table shrinks by one |
| BackLedger.RemoveKeepsNoDup | back/index.ts:331-338 | deleting a row keeps at most one row per pair |
| BackLedger.CountAfterRemove | back/index.ts:331-338 | deleting a present row lowers its post's count by one and leaves every other post's count unchanged |
| BackReads.UserById | back/index.ts:195-199 | the found user has the requested id; none iff no user has it |
| BackReads.ListPosts | back/index.ts:186-210 | one entry per stored post, in store order, each carrying the post, its like count (zero iff no like row names it), and its owner's id and username, or no owner iff no user has that id |
| BackReads.LikedPostIds | back/index.ts:352-357 | an id is listed iff the caller has a like row on it |
| BackReads.PostsWithIds | back/index.ts:359-363 | exactly the stored posts whose id is in the list, never more rows than the table |
| BackReads.LikedPosts | back/index.ts:352-363 | a stored post is listed iff the caller has a like row on it |
| BackReads.LikedPostsExactly | back/index.ts:352-364 | LikedPosts lists exactly the stored posts the caller has a like row on, each once |
| BackReads.FilterNoDup | back/index.ts:359-363 | the id filter lists no post twice |
| BackReads.LikedPostsRoute | back/index.ts:347-366 | 401 iff the session check fails; otherwise exactly the stored posts the caller liked |
| BackReads.LikeEntriesExactly | back/index.ts:374-390 | LikeEntries of a post are exactly its likes by users other than the caller, each with the post id, the liker's id and the liker's username |
| BackReads.NotificationsExactly | back/index.ts:370-391 | every entry of Notifications is a like by someone else on a post the caller owns, and every such like yields an entry |
| BackReads.LikeEntriesNoDup | back/index.ts:374-390 | with one row per pair, a post's entries are distinct |
| BackReads.NotificationsNoDup | back/index.ts:370-391 | with unique post ids and one like row per pair, no entry repeats |
| BackReads.NotificationRoute | back/index.ts:368-393 | answers entries iff the session check passes, and 401 otherwise |
| BackReads.NotificationRouteExactly | back/index.ts:368-393 | for an authenticated caller, no entry names the caller as liker and every like by someone else on the caller's posts is reported |
| BackReads.NotificationScenario | back/index.ts:385-391 | alice's like on bob's post gives bob exactly one notification, naming alice |
| BackStore.RemovePost | back/index.ts:251-255 | the rows left are exactly the stored rows with another id |
| BackStore.RemovePostKeepsUniqueIds | back/index.ts:251-255 | deleting a post keeps the post ids unique |
| BackStore.LikeEffect | back/index.ts:286-301 | appending an absent pair keeps one row per pair, raises only that post's count, by one, and puts the post among the caller's liked ids |
| BackStore.UnlikeEffect | back/index.ts:321-338 | deleting a present pair keeps one row per pair, removes exactly that row, and lowers only that post's count, by one |
| BackStore.Store.constructor | back/index.ts:29 | an empty store satisfying the invariant |
| BackStore.Store.Register | back/index.ts:112-147 | keeps the invariant; answers RegisterDecision; on success appends the user with the next id and the bcrypt digest of the password, and changes nothing else |
| BackStore.Store.CreatePost | back/index.ts:212-236 | keeps the invariant; 401 from the guard or 400 without an image, changing no post; otherwise appends the post with image_path "/public/"+name, the caller as owner and both dates set to now, and the upload's file is in the upload directory |
| BackStore.Store.DeletePost | back/index.ts:238-263 | keeps the invariant; guard errors pass through; a non-owner gets 401; the image_path itself is unlinked before the row is deleted, so a failed or missing unlink changes nothing and a failed row delete leaves the post without its file; for an owner whose post has a "/public/" image_path the answer is always 500 with nothing changed |
| BackStore.Store.DeletePostCorrected | back/index.ts:238-263 | as DeletePost, but unlinking the stored file behind the image_path; success removes exactly that post and that file; likes and users untouched |
| BackStore.Store.Like | back/index.ts:279-308 | keeps the invariant; guard errors pass through; an existing pair gives 401 "already liked"; a store failure 500; otherwise exactly one row for the pair is appended |
| BackStore.Store.Unlike | back/index.ts:310-345 | keeps the invariant; guard errors pass through; a missing pair gives 401 "didn't like"; a store failure 500; otherwise exactly that row is removed (its multiset and count effects are UnlikeEffect) and the table shrinks by one |
| BackStore.LikeTwice | back/index.ts:286-294 | once a like succeeds, repeating it answers 401 and the table holds the single new row |
| BackStore.UnlikeTwice | back/index.ts:321-329 | once an unlike succeeds, repeating it answers 401 and no further row is removed |
| BackStore.CreateThenDelete | back/index.ts:212-263 | after a successful post creation, its owner's delete answers 500 and the new post and its uploaded file both remain |
| BackStore.CreateThenDeleteCorrected | back/index.ts:212-263 | with the corrected delete, the owner's delete of a new post succeeds, its uploaded file is gone, and the posts are those before the creation |
| BackStore.AppendUserKeepsUniqueIds | back/index.ts:133-139 | inserting a user with a fresh id keeps the user ids unique and adds exactly that id |
| LoginRules.FirstFailingIsLowest | front/src/pages/Login.tsx:97-104 | FirstFailing gives the lowest-indexed rule whose pattern the password fails, and none iff every rule passes |
| LoginRules.RuleNumbers | front/src/pages/Login.tsx:14-39 | there are four rules, numbered 1 to 4 in list order |
| LoginRules.StrengthErrorIsFirstFailure | front/src/pages/Login.tsx:92-108 | StrengthError of an empty password is none; for a non-empty one it is the rule k whose pattern fails with every earlier rule passing, and none iff all four pass |
| LoginRules.PlusIsNotSpecial | front/src/pages/Login.tsx:33-38 | '+' is outside the special-character class, so "Abcdefg1+" is reported under rule 4 |
| LoginRules.StrongPassword | front/src/pages/Login.tsx:105-107 | every non-empty password that passes all four rules leaves no error |
| LoginRules.StrongPasswordExample | front/src/pages/Login.tsx:14-39 | "Passw0rd!" passes all four rules and leaves no error |
| LoginRules.IndexOf | front/src/pages/Login.tsx:41 | the position of the first occurrence, or the length when there is none |
| LoginRules.CountCharOne | front/src/pages/Login.tsx:41 | a character occurring at i occurs once iff it occurs nowhere else |
| LoginRules.CountCharZero | front/src/pages/Login.tsx:41 | a character's count is zero iff it occurs nowhere |
| LoginRules.EmailRegexIsShape | front/src/pages/Login.tsx:41 | MatchesEmailRegex accepts exactly: no whitespace, exactly one '@' with text before it, and after it a '.' with non-empty text on both sides |
| LoginRules.EmailErrorExactly | front/src/pages/Login.tsx:84-90 | an empty email is never flagged; a non-empty one is flagged iff it lacks that shape |
| LoginRules.EmailAccepted | front/src/pages/Login.tsx:41 | "a@x.com" is accepted |
| LoginRules.EmailTwoAts | front/src/pages/Login.tsx:41 | "a@b@x.com" is rejected |
| LoginPage.Page.constructor | front/src/pages/Login.tsx:46-59 | the register side is shown first, every field is empty and no error is set |
| LoginPage.Page.CheckEmailValidity | front/src/pages/Login.tsx:84-90 | clears the flag for an empty email, otherwise sets it iff the email lacks the regular expression's shape |
| LoginPage.Page.CheckPasswordStrength | front/src/pages/Login.tsx:92-108 | the loop leaves the first failing rule, or none when all pass or the password is empty |
| LoginPage.Page.HandleInputChange | front/src/pages/Login.tsx:110-136 | stores the value in the named field and runs that field's validator; every other field, and everything for an unknown name, is unchanged |
| LoginPage.Page.LoginUser | front/src/pages/Login.tsx:63-82 | posts the credentials; a 200 answer signs in and navigates to "/"; a 403 rejection shows the wrong-credentials message, any other rejection the generic one |
| LoginPage.Page.HandleRegister | front/src/pages/Login.tsx:138-163 | alerts and sends nothing iff the passwords differ; otherwise posts the registration; after a 200 it logs in with the same credentials, with the login's outcome on signedIn, navigation and the error; a 400 rejection shows "account exists", any other rejection the request-failed message, and a non-200 success changes nothing |
| LoginPage.Page.HandleLogin | front/src/pages/Login.tsx:165-171 | sends the login fields; a 200 answer signs in and navigates to "/" with no error, any other success changes nothing but the cleared error, and a rejection shows the wrong-credentials or generic message |
| LoginPage.Page.HandleToggle | front/src/pages/Login.tsx:173-176 | clears the error and shows the other side (Flip) |
| LoginPage.ToggleTwice | front/src/pages/Login.tsx:173-176 | toggling twice shows the original side with no error, leaving the password fields alone |

## Left out

- Compare: bcrypt's 72-byte input limit is counted in characters, not UTF-8 bytes; the two agree for ASCII passwords, and a password with multi-byte characters is cut later in the model than by bcrypt.
- DeletePost: the file system outside the upload directory is not modelled; an unlink of a path outside it (such as a "/public/" image_path) finds no file.
- Express wiring is not modelled: CORS, JSON and cookie parsing, `app.listen`, the `/api` prefix and response bodies. Only the status codes and the reasons behind them are.
- The cookie options (httpOnly, secure, sameSite, maxAge) are not modelled.
- JWT signing and verification are not modelled. The token is its claims plus the "30d" lifetime. Signature checking and `iat`/`exp` arithmetic are outside the model: `decoded` is a parameter.
- bcrypt salting and the cost-10 hashing arithmetic are not modelled. A digest records its cost and plaintext, and `Compare` can match, mismatch or throw.
- multer's `Date.now()`-based file naming is not modelled: the generated name is the `upload` parameter.
- The `GET /public/:fileName` file-serving route is not part of this model.
- The `if (!post)` check inside the unlike handler is not modelled. The findPost middleware already answers 404 when the post is missing, so the check never fires.
- Concurrency is not modelled. Handlers run one at a time, so there is no race between the like handler's findFirst and its create.
- BackStore.Store.Like: the store's unique key on (userId, postId) is modelled only through the findFirst check that comes before the insert. A failing foreign key to the user answers 500, like any other store failure.
- BackStore.Store.CreatePost: `post.create` is taken never to fail. The handler has no catch, so a failure there would be an unhandled rejection, which is outside the model.
- Store failures are modelled only at the steps the handlers wrap in try/catch: the user insert, the unlink, the row delete, the like insert and the like delete. The lookups are taken to succeed.
- Request payloads are typed: `postId` is an integer or absent. Non-numeric JSON values, and Prisma's validation errors on them, are not modelled.
- BackModel.Lower: lowercases ASCII letters only. Non-ASCII case mappings of `toLowerCase` are not modelled.
- Strings are sequences of code points, not UTF-16 code units. The password length rule counts characters, which differs from JavaScript only for characters outside the Basic Multilingual Plane.
- BackReads.UsernameOf: a like whose user row is missing yields an empty username. The schema's required relation makes that case impossible in the store.
- `findMany` and the `likedBy` relation return rows in store (insertion) order. The source gives no `orderBy`, and the database's own order is not modelled.
- BackModel.MixedCaseUsernameAdmittedTwice: the `where` string equality is modelled as exact comparison; a case-insensitive collation or a unique index on username would change this lemma (the lookup or the insert would then refuse the second "Alice").
- The database schema is not modelled: on post deletion the model neither cascades nor restricts the like rows; a foreign key that refuses the row delete is one of the `rowDeleteFails` cases.
- The page's rendering, CSS and navigation internals are not modelled. `navigate("/")` is recorded as a field, the user context as a flag, and `alert` as a returned flag. Console logging is left out.

## Findings

| source | as written | input that shows it | evidently intended | confidence | as-written member | corrected member |
|---|---|---|---|---|---|---|
| back/index.ts:250 | the delete handler unlinks `post.image_path`, which line 226 sets to "/public/"+filename, while multer (line 20) writes the file under "uploads/" | a post created from upload "1-cat.png": image_path is "/public/1-cat.png", so unlink misses "uploads/1-cat.png" and the owner's delete answers 500 without deleting the row | unlink the stored file "uploads/"+filename, then delete the row | high; not executed | BackStore.CreateThenDelete | BackStore.CreateThenDeleteCorrected |
