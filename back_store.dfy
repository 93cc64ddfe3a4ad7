/** The tables the handlers of back/index.ts mutate (user, post, userLike)
    and the upload directory, as one in-memory store; each mutating route
    is a method that answers with a Reason (whose Status is the HTTP code)
    and updates the store. Handlers run one at a time. */
module BackStore {
  import opened Common
  import opened BackModel
  import opened BackLedger
  import opened BackReads

  /** post.delete({ where: { id } }): the table without that row. */
  function RemovePost(posts: seq<Post>, id: int): (r: seq<Post>)
    ensures forall p :: p in r <==> p in posts && p.id != id
    ensures |r| <= |posts|
  {
    if posts == [] then []
    else if posts[0].id == id then RemovePost(posts[1..], id)
    else [posts[0]] + RemovePost(posts[1..], id)
  }

  /** A row whose id no other row has can head a table with unique ids. */
  lemma ConsKeepsUniqueIds(p: Post, r: seq<Post>)
    requires UniquePostIds(r)
    requires forall q :: q in r ==> q.id != p.id
    ensures UniquePostIds([p] + r)
  {
    var all := [p] + r;
    forall i, j | 0 <= i < j < |all| ensures all[i].id != all[j].id {
      assert all[j] == r[j - 1];
      if i > 0 {
        assert all[i] == r[i - 1];
      }
    }
  }

  /** Removing a row keeps the primary keys unique. */
  lemma {:induction false} RemovePostKeepsUniqueIds(posts: seq<Post>, id: int)
    requires UniquePostIds(posts)
    ensures UniquePostIds(RemovePost(posts, id))
  {
    if posts != [] {
      var rest := posts[1..];
      assert UniquePostIds(rest) by {
        forall i, j | 0 <= i < j < |rest| ensures rest[i].id != rest[j].id {
          assert rest[i] == posts[i + 1] && rest[j] == posts[j + 1];
        }
      }
      RemovePostKeepsUniqueIds(rest, id);
      if posts[0].id != id {
        var r := RemovePost(rest, id);
        forall q | q in r ensures q.id != posts[0].id {
          var k :| 0 <= k < |rest| && rest[k] == q;
          assert posts[k + 1] == q;
        }
        ConsKeepsUniqueIds(posts[0], r);
      }
    }
  }

  /** Appending a user with a fresh id keeps the user ids unique and adds
      exactly that id. */
  lemma AppendUserKeepsUniqueIds(users: seq<User>, u: User)
    requires UniqueUserIds(users)
    requires forall v :: v in users ==> v.id != u.id
    ensures UniqueUserIds(users + [u])
    ensures UserIds(users + [u]) == UserIds(users) + {u.id}
  {
    var all := users + [u];
    forall i, j | 0 <= i < j < |all| ensures all[i].id != all[j].id {
      assert all[i] == users[i];
      if j < |users| {
        assert all[j] == users[j];
      }
    }
  }

  /** The ids of the user table. */
  function UserIds(users: seq<User>): (ids: set<int>)
    ensures forall u :: u in users ==> u.id in ids
    ensures forall id :: id in ids ==> exists u :: u in users && u.id == id
  {
    set u | u in users :: u.id
  }

  /** Everything inserting an absent pair does to the like table. */
  lemma LikeEffect(likes: seq<Like>, pair: Like)
    requires NoDup(likes) && pair !in likes
    ensures NoDup(likes + [pair])
    ensures forall q :: CountLikes(likes + [pair], q) == CountLikes(likes, q) + (if q == pair.postId then 1 else 0)
    ensures pair.postId in LikedPostIds(likes + [pair], pair.userId)
  {
    InsertKeepsNoDup(likes, pair);
    forall q ensures CountLikes(likes + [pair], q) == CountLikes(likes, q) + (if q == pair.postId then 1 else 0) {
      CountAfterInsert(likes, pair, q);
    }
  }

  /** Everything removing a present pair does to the like table, in one place. */
  lemma UnlikeEffect(likes: seq<Like>, pair: Like)
    requires NoDup(likes) && pair in likes
    ensures var after := RemoveLike(likes, pair);
      && NoDup(after) && pair !in after
      && multiset(after) == multiset(likes) - multiset{pair}
      && |after| == |likes| - 1
      && (forall l :: l in after ==> l in likes)
      && (forall q :: CountLikes(after, q) == CountLikes(likes, q) - (if q == pair.postId then 1 else 0))
  {
    RemoveExactlyOne(likes, pair);
    RemoveKeepsNoDup(likes, pair);
    forall q ensures CountLikes(RemoveLike(likes, pair), q) == CountLikes(likes, q) - (if q == pair.postId then 1 else 0) {
      CountAfterRemove(likes, pair, q);
    }
  }

  class Store {
    var users: seq<User>
    var posts: seq<Post>
    var likes: seq<Like>
    /** Paths of the files present in the upload directory. */
    var files: set<string>
    var nextUserId: int
    var nextPostId: int

    /** The store's invariant: unique primary keys, at most one like row per
        (userId, postId) pair, every like row's user exists, the
        autoincrement counters are ahead of every id, and every stored file
        lies in the upload directory. */
    ghost predicate Valid()
      reads this
    {
      && UniqueUserIds(users) && UniquePostIds(posts) && NoDup(likes)
      && (forall l :: l in likes ==> l.userId in UserIds(users))
      && 0 < nextUserId && 0 < nextPostId
      && (forall u :: u in users ==> 0 < u.id < nextUserId)
      && (forall p :: p in posts ==> 0 < p.id < nextPostId)
      && (forall f :: f in files ==> IsUploadPath(f))
    }

    constructor ()
      ensures Valid()
      ensures users == [] && posts == [] && likes == [] && files == {}
    {
      users, posts, likes, files := [], [], [], {};
      nextUserId, nextPostId := 1, 1;
    }

    /** POST /api/register. `storeFails` is whether user.create throws. */
    method Register(email: Option<string>, username: Option<string>, password: Option<string>, storeFails: bool)
      returns (r: Reason)
      requires Valid()
      modifies this
      ensures Valid()
      ensures r == RegisterDecision(old(users), email, username, password, storeFails)
      ensures r == Success ==>
                users == old(users) + [NewUser(old(nextUserId), email.value, username.value, password.value)]
      ensures r != Success ==> users == old(users)
      ensures posts == old(posts) && likes == old(likes) && files == old(files)
      ensures nextPostId == old(nextPostId)
    {
      r := RegisterDecision(users, email, username, password, storeFails);
      if r == Success {
        var u := NewUser(nextUserId, email.value, username.value, password.value);
        AppendUserKeepsUniqueIds(users, u);
        users := users + [u];
        nextUserId := nextUserId + 1;
      }
    }

    /** POST /api/post: verifyToken, then the upload middleware (which
        writes the file named `upload`, if one was sent), then the handler. */
    method CreatePost(token: Option<string>, decoded: Option<Claims>, upload: Option<string>,
                      description: string, now: int)
      returns (r: Reason, post: Option<Post>)
      requires Valid()
      modifies this
      ensures Valid()
      ensures VerifyToken(token, decoded).Err? ==>
                r == VerifyToken(token, decoded).error && post.None?
                && posts == old(posts) && files == old(files)
      ensures VerifyToken(token, decoded).Ok? && upload.None? ==>
                r == MissingImage && post.None? && posts == old(posts) && files == old(files)
      ensures VerifyToken(token, decoded).Ok? && upload.Some? ==>
                && r == Success
                && post == Some(Post(old(nextPostId), ImagePath(upload.value), description, now, now, decoded.value.id))
                && posts == old(posts) + [post.value]
                && files == old(files) + {UploadPath(upload.value)}
      ensures post.Some? ==> StoredFilePath(post.value) in files
      ensures users == old(users) && likes == old(likes) && nextUserId == old(nextUserId)
    {
      post := None;
      var session := VerifyToken(token, decoded);
      if session.Err? {
        return session.error, None;
      }
      if upload.None? {
        return MissingImage, None;
      }
      var path := UploadPath(upload.value);
      assert path[..|UploadDir|] == UploadDir;
      files := files + {path};
      var p := Post(nextPostId, ImagePath(upload.value), description, now, now, session.value.id);
      posts := posts + [p];
      nextPostId := nextPostId + 1;
      r, post := Success, Some(p);
    }

    /** DELETE /api/post: verifyToken, findPost, the ownership check, then
        fs.unlink of the post's image_path and only after it the row delete.
        `unlinkFails` is an I/O error other than a missing file;
        `rowDeleteFails` is whether post.delete throws. The image_path is a
        URL path under /public/, never a file of the upload directory, so
        for a post created by CreatePost the owner's delete always fails. */
    method DeletePost(token: Option<string>, decoded: Option<Claims>, postId: Option<int>,
                      unlinkFails: bool, rowDeleteFails: bool)
      returns (r: Reason)
      requires Valid()
      modifies this
      ensures Valid()
      ensures var g := PostGuard(token, decoded, old(posts), postId);
        && (g.Err? ==> r == g.error && posts == old(posts) && files == old(files))
        && (g.Ok? && g.value.1.userId != g.value.0.id ==>
              r == NotOwner && posts == old(posts) && files == old(files))
        && (g.Ok? && g.value.1.userId == g.value.0.id ==>
              var target := UnlinkPathAsWritten(g.value.1);
              && (unlinkFails || target !in old(files) ==>
                    r == DeleteFailed && posts == old(posts) && files == old(files))
              && (!unlinkFails && target in old(files) ==> files == old(files) - {target})
              && (!unlinkFails && target in old(files) && rowDeleteFails ==>
                    r == DeleteFailed && posts == old(posts))
              && (!unlinkFails && target in old(files) && !rowDeleteFails ==>
                    r == Success && posts == RemovePost(old(posts), g.value.1.id)))
        && (g.Ok? && g.value.1.userId == g.value.0.id && IsPublicPath(g.value.1.imagePath) ==>
              r == DeleteFailed && posts == old(posts) && files == old(files))
      ensures r != Success ==> posts == old(posts)
      ensures users == old(users) && likes == old(likes)
      ensures nextUserId == old(nextUserId) && nextPostId == old(nextPostId)
    {
      var g := PostGuard(token, decoded, posts, postId);
      if g.Err? {
        return g.error;
      }
      var (session, post) := g.value;
      if post.userId != session.id {
        return NotOwner;
      }
      var target := UnlinkPathAsWritten(post);
      if IsPublicPath(target) {
        PublicIsNotUpload(target);
      }
      if unlinkFails || target !in files {
        return DeleteFailed;
      }
      files := files - {target};
      if rowDeleteFails {
        return DeleteFailed;
      }
      RemovePostKeepsUniqueIds(posts, post.id);
      posts := RemovePost(posts, post.id);
      r := Success;
    }

    /** DELETE /api/post as evidently intended: as DeletePost, but the
        unlink targets the stored file behind the post's image_path.
        `unlinkFails` is an I/O error other than a missing file;
        `rowDeleteFails` is whether post.delete throws. */
    method DeletePostCorrected(token: Option<string>, decoded: Option<Claims>, postId: Option<int>,
                      unlinkFails: bool, rowDeleteFails: bool)
      returns (r: Reason)
      requires Valid()
      modifies this
      ensures Valid()
      ensures var g := PostGuard(token, decoded, old(posts), postId);
        && (g.Err? ==> r == g.error && posts == old(posts) && files == old(files))
        && (g.Ok? && g.value.1.userId != g.value.0.id ==>
              r == NotOwner && posts == old(posts) && files == old(files))
        && (g.Ok? && g.value.1.userId == g.value.0.id ==>
              var target := StoredFilePath(g.value.1);
              && (unlinkFails || target !in old(files) ==>
                    r == DeleteFailed && posts == old(posts) && files == old(files))
              && (!unlinkFails && target in old(files) ==> files == old(files) - {target})
              && (!unlinkFails && target in old(files) && rowDeleteFails ==>
                    r == DeleteFailed && posts == old(posts))
              && (!unlinkFails && target in old(files) && !rowDeleteFails ==>
                    r == Success && posts == RemovePost(old(posts), g.value.1.id)))
      ensures r != Success ==> posts == old(posts)
      ensures r == Success ==> forall p :: p in posts <==> p in old(posts) && p.id != postId.value
      ensures users == old(users) && likes == old(likes)
      ensures nextUserId == old(nextUserId) && nextPostId == old(nextPostId)
    {
      var g := PostGuard(token, decoded, posts, postId);
      if g.Err? {
        return g.error;
      }
      var (session, post) := g.value;
      if post.userId != session.id {
        return NotOwner;
      }
      var target := StoredFilePath(post);
      if unlinkFails || target !in files {
        return DeleteFailed;
      }
      files := files - {target};
      if rowDeleteFails {
        return DeleteFailed;
      }
      RemovePostKeepsUniqueIds(posts, post.id);
      posts := RemovePost(posts, post.id);
      r := Success;
    }

    /** POST /api/post/like. `storeFails` is whether userLike.create
        throws for a reason other than the foreign key to the user. What
        the appended row does to the like counts and to the caller's liked
        posts is LikeEffect. */
    method Like(token: Option<string>, decoded: Option<Claims>, postId: Option<int>, storeFails: bool)
      returns (r: Reason)
      requires Valid()
      modifies this
      ensures Valid()
      ensures var g := PostGuard(token, decoded, old(posts), postId);
        && (g.Err? ==> r == g.error)
        && (g.Ok? ==>
              var pair := BackModel.Like(g.value.0.id, g.value.1.id);
              && (pair in old(likes) ==> r == AlreadyLiked)
              && (pair !in old(likes) && (storeFails || pair.userId !in UserIds(users)) ==> r == ServerError)
              && (pair !in old(likes) && !storeFails && pair.userId in UserIds(users) ==>
                    r == Success && likes == old(likes) + [pair]))
      ensures r != Success ==> likes == old(likes)
      ensures r == Success ==>
                && BackModel.Like(decoded.value.id, postId.value) !in old(likes)
                && likes == old(likes) + [BackModel.Like(decoded.value.id, postId.value)]
      ensures users == old(users) && posts == old(posts) && files == old(files)
      ensures nextUserId == old(nextUserId) && nextPostId == old(nextPostId)
    {
      var g := PostGuard(token, decoded, posts, postId);
      if g.Err? {
        return g.error;
      }
      var (session, post) := g.value;
      var pair := BackModel.Like(session.id, post.id);
      if pair in likes {
        return AlreadyLiked;
      }
      if storeFails || pair.userId !in UserIds(users) {
        return ServerError;
      }
      LikeEffect(likes, pair);
      likes := likes + [pair];
      r := Success;
    }

    /** DELETE /api/post/like. `storeFails` is whether userLike.delete
        throws. What the removal does to the rows as a multiset and to the
        like counts is UnlikeEffect. */
    method Unlike(token: Option<string>, decoded: Option<Claims>, postId: Option<int>, storeFails: bool)
      returns (r: Reason)
      requires Valid()
      modifies this
      ensures Valid()
      ensures var g := PostGuard(token, decoded, old(posts), postId);
        && (g.Err? ==> r == g.error)
        && (g.Ok? ==>
              var pair := BackModel.Like(g.value.0.id, g.value.1.id);
              && (pair !in old(likes) ==> r == NotLiked)
              && (pair in old(likes) && storeFails ==> r == ServerError)
              && (pair in old(likes) && !storeFails ==> r == Success && likes == RemoveLike(old(likes), pair)))
      ensures r != Success ==> likes == old(likes)
      ensures r == Success ==>
                var pair := BackModel.Like(decoded.value.id, postId.value);
                && pair in old(likes) && pair !in likes
                && likes == RemoveLike(old(likes), pair)
                && |likes| == |old(likes)| - 1
      ensures users == old(users) && posts == old(posts) && files == old(files)
      ensures nextUserId == old(nextUserId) && nextPostId == old(nextPostId)
    {
      var g := PostGuard(token, decoded, posts, postId);
      if g.Err? {
        return g.error;
      }
      var (session, post) := g.value;
      var pair := BackModel.Like(session.id, post.id);
      if pair !in likes {
        return NotLiked;
      }
      if storeFails {
        return ServerError;
      }
      UnlikeEffect(likes, pair);
      likes := RemoveLike(likes, pair);
      r := Success;
    }
  }

  /** Liking the same post twice in a row: once the first like succeeds,
      the second is rejected with 401 and the pair keeps its single row. */
  method LikeTwice(s: Store, token: string, c: Claims, postId: int) returns (r1: Reason, r2: Reason)
    requires s.Valid() && token != ""
    modifies s
    ensures s.Valid()
    ensures r1 == Success ==> r2 == AlreadyLiked && Status(r2) == 401
    ensures r1 == Success ==> s.likes == old(s.likes) + [BackModel.Like(c.id, postId)]
  {
    r1 := s.Like(Some(token), Some(c), Some(postId), false);
    ghost var likes1 := s.likes;
    GuardOrder(Some(token), Some(c), s.posts, Some(postId));
    r2 := s.Like(Some(token), Some(c), Some(postId), false);
    if r1 == Success {
      assert BackModel.Like(c.id, postId) in likes1;
    }
  }

  /** Unliking the same post twice in a row: once the first unlike
      succeeds, the second is rejected with 401 and changes nothing more. */
  method UnlikeTwice(s: Store, token: string, c: Claims, postId: int) returns (r1: Reason, r2: Reason)
    requires s.Valid() && token != ""
    modifies s
    ensures s.Valid()
    ensures r1 == Success ==> r2 == NotLiked && Status(r2) == 401
    ensures r1 == Success ==> s.likes == RemoveLike(old(s.likes), BackModel.Like(c.id, postId))
  {
    ghost var pair := BackModel.Like(c.id, postId);
    GuardOrder(Some(token), Some(c), s.posts, Some(postId));
    r1 := s.Unlike(Some(token), Some(c), Some(postId), false);
    if r1 == Success {
      assert pair !in s.likes && s.likes == RemoveLike(old(s.likes), pair);
    }
    ghost var likes1 := s.likes;
    r2 := s.Unlike(Some(token), Some(c), Some(postId), false);
    assert r1 == Success ==> s.likes == likes1;
  }

  /** Deleting a post right after creating it, as written: once CreatePost
      succeeds, its owner's delete answers 500 and leaves the post and its
      file in place. */
  method CreateThenDelete(s: Store, token: string, c: Claims, upload: string, description: string, now: int)
    returns (r1: Reason, r2: Reason)
    requires s.Valid() && token != ""
    modifies s
    ensures s.Valid()
    ensures r1 == Success ==> r2 == DeleteFailed && Status(r2) == 500
    ensures r1 == Success ==>
              && s.posts == old(s.posts) + [Post(old(s.nextPostId), ImagePath(upload), description, now, now, c.id)]
              && s.files == old(s.files) + {UploadPath(upload)}
  {
    var post;
    r1, post := s.CreatePost(Some(token), Some(c), Some(upload), description, now);
    r2 := r1;
    if post.Some? {
      var p := post.value;
      assert PostById(s.posts, p.id) == Some(p);
      r2 := s.DeletePost(Some(token), Some(c), Some(p.id), false, false);
    }
  }

  /** The same sequence with the corrected delete: it succeeds, and the
      post and its uploaded file are both gone again. */
  method CreateThenDeleteCorrected(s: Store, token: string, c: Claims, upload: string, description: string, now: int)
    returns (r1: Reason, r2: Reason)
    requires s.Valid() && token != ""
    modifies s
    ensures s.Valid()
    ensures r1 == Success ==> r2 == Success
    ensures r1 == Success ==> UploadPath(upload) !in s.files
    ensures r1 == Success ==> forall q :: q in s.posts <==> q in old(s.posts)
  {
    var post;
    r1, post := s.CreatePost(Some(token), Some(c), Some(upload), description, now);
    r2 := r1;
    if post.Some? {
      var p := post.value;
      assert PostById(s.posts, p.id) == Some(p);
      r2 := s.DeletePostCorrected(Some(token), Some(c), Some(p.id), false, false);
    }
  }
}
