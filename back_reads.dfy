/** The read-only routes of back/index.ts: the posts listing with like
    counts and owners, the caller's liked posts, and the notifications
    derived from the likes on the caller's posts. */
module BackReads {
  import opened Common
  import opened BackModel
  import opened BackLedger

  // ------------------------------------------------------------ GET /posts

  datatype UserShort = UserShort(id: int, username: string)

  /** One element of the listing: the post row, its like count and its
      owner's {id, username} (None when no user row has the owner id, where
      the source yields `user: { id: undefined, username: undefined }`). */
  datatype PostView = PostView(post: Post, like: nat, user: Option<UserShort>)

  function UserById(users: seq<User>, id: int): (r: Option<User>)
    ensures r.Some? ==> r.value in users && r.value.id == id
    ensures r.None? <==> forall u :: u in users ==> u.id != id
  {
    Find(users, (u: User) => u.id == id)
  }

  function Owner(users: seq<User>, p: Post): Option<UserShort> {
    match UserById(users, p.userId)
    case None => None
    case Some(u) => Some(UserShort(u.id, u.username))
  }

  /** The /posts handler: for each stored post, in store order, count its
      likes and look up its owner, and push the enriched record. */
  method ListPosts(posts: seq<Post>, likes: seq<Like>, users: seq<User>) returns (postsData: seq<PostView>)
    ensures |postsData| == |posts|
    ensures forall i :: 0 <= i < |posts| ==> postsData[i].post == posts[i]
    ensures forall i :: 0 <= i < |posts| ==>
              postsData[i].like == CountLikes(likes, posts[i].id)
              && (postsData[i].like == 0 <==> forall l :: l in likes ==> l.postId != posts[i].id)
    ensures forall i :: 0 <= i < |posts| ==>
              match postsData[i].user
              case Some(o) => o.id == posts[i].userId
                              && exists u :: u in users && u.id == o.id && u.username == o.username
              case None => forall u :: u in users ==> u.id != posts[i].userId
  {
    postsData := [];
    for k := 0 to |posts|
      invariant |postsData| == k
      invariant forall i :: 0 <= i < k ==>
                  postsData[i] == PostView(posts[i], CountLikes(likes, posts[i].id), Owner(users, posts[i]))
    {
      var post := posts[k];
      var like := CountLikes(likes, post.id);
      var user := UserById(users, post.userId);
      var owner := if user.Some? then Some(UserShort(user.value.id, user.value.username)) else None;
      postsData := postsData + [PostView(post, like, owner)];
    }
    forall i | 0 <= i < |posts| && postsData[i].user.Some?
      ensures exists u :: u in users && u.id == postsData[i].user.value.id
                          && u.username == postsData[i].user.value.username
    {
      var u := UserById(users, posts[i].userId).value;
      assert u in users;
    }
  }

  // ------------------------------------------------- GET /user/likedPosts

  /** likesPosts.map(like => like.postId) over the caller's like rows. */
  function LikedPostIds(likes: seq<Like>, userId: int): (ids: seq<int>)
    ensures forall id :: id in ids <==> Like(userId, id) in likes
  {
    if likes == [] then []
    else (if likes[0].userId == userId then [likes[0].postId] else []) + LikedPostIds(likes[1..], userId)
  }

  /** post.findMany({ where: { id: { in: ids } } }), in store order. */
  function PostsWithIds(posts: seq<Post>, ids: seq<int>): (r: seq<Post>)
    ensures forall p :: p in r <==> p in posts && p.id in ids
    ensures |r| <= |posts|
  {
    if posts == [] then []
    else (if posts[0].id in ids then [posts[0]] else []) + PostsWithIds(posts[1..], ids)
  }

  function LikedPosts(posts: seq<Post>, likes: seq<Like>, userId: int): (r: seq<Post>)
    ensures forall p :: p in r <==> p in posts && Like(userId, p.id) in likes
  {
    PostsWithIds(posts, LikedPostIds(likes, userId))
  }

  /** A stored post is listed exactly when the caller has a like row on
      it; like rows whose post is gone list nothing; and the listing
      never repeats a row. */
  lemma {:induction false} LikedPostsExactly(posts: seq<Post>, likes: seq<Like>, userId: int)
    requires NoDup(posts)
    ensures forall p :: p in LikedPosts(posts, likes, userId) <==> p in posts && Like(userId, p.id) in likes
    ensures NoDup(LikedPosts(posts, likes, userId))
  {
    FilterNoDup(posts, LikedPostIds(likes, userId));
  }

  lemma {:induction false} FilterNoDup(posts: seq<Post>, ids: seq<int>)
    requires NoDup(posts)
    ensures NoDup(PostsWithIds(posts, ids))
  {
    if posts != [] {
      NoDupTail(posts);
      NoDupHeadNotInTail(posts);
      FilterNoDup(posts[1..], ids);
      NoDupConcat(if posts[0].id in ids then [posts[0]] else [], PostsWithIds(posts[1..], ids));
    }
  }

  /** The likedPosts route: the guard's 401, or the caller's liked posts. */
  function LikedPostsRoute(token: Option<string>, decoded: Option<Claims>, posts: seq<Post>, likes: seq<Like>)
    : (r: Result<seq<Post>, Reason>)
    ensures r.Err? ==> Status(r.error) == 401 && !(Present(token) && decoded.Some?)
    ensures r.Ok? ==> Present(token) && decoded.Some?
    ensures r.Ok? ==> forall p :: p in r.value <==> p in posts && Like(decoded.value.id, p.id) in likes
  {
    match VerifyToken(token, decoded)
    case Err(e) => Err(e)
    case Ok(c) => Ok(LikedPosts(posts, likes, c.id))
  }

  // ------------------------------------------------- GET /user/notification

  datatype Notification = Notification(postId: int, userId: int, username: string)

  /** `like.user.username`: the liker's username. The relation is required,
      so a like row always has its user; "" stands for the absent case. */
  function UsernameOf(users: seq<User>, id: int): string {
    match UserById(users, id)
    case None => ""
    case Some(u) => u.username
  }

  /** post.likedBy filtered on `userId: { not: caller }`, mapped to entries. */
  function LikeEntries(p: Post, likes: seq<Like>, users: seq<User>, caller: int): seq<Notification> {
    if likes == [] then []
    else
      (if likes[0].postId == p.id && likes[0].userId != caller
       then [Notification(p.id, likes[0].userId, UsernameOf(users, likes[0].userId))] else [])
      + LikeEntries(p, likes[1..], users, caller)
  }

  /** The caller's posts, in store order, flat-mapped to their entries. */
  function Notifications(posts: seq<Post>, likes: seq<Like>, users: seq<User>, caller: int): seq<Notification> {
    if posts == [] then []
    else
      (if posts[0].userId == caller then LikeEntries(posts[0], likes, users, caller) else [])
      + Notifications(posts[1..], likes, users, caller)
  }

  predicate OwnedBy(posts: seq<Post>, postId: int, caller: int) {
    exists p :: p in posts && p.id == postId && p.userId == caller
  }

  lemma {:induction false} LikeEntriesExactly(p: Post, likes: seq<Like>, users: seq<User>, caller: int)
    ensures forall n :: n in LikeEntries(p, likes, users, caller) ==>
              n.postId == p.id && n.userId != caller && Like(n.userId, p.id) in likes
              && n.username == UsernameOf(users, n.userId)
    ensures forall l :: l in likes && l.postId == p.id && l.userId != caller ==>
              Notification(p.id, l.userId, UsernameOf(users, l.userId)) in LikeEntries(p, likes, users, caller)
  {
    if likes != [] {
      LikeEntriesExactly(p, likes[1..], users, caller);
      assert likes == [likes[0]] + likes[1..];
    }
  }

  /** Every entry is a like, by someone other than the caller, on a post
      the caller owns, carrying the liker's username; and every such like
      has its entry. */
  lemma {:induction false} NotificationsExactly(posts: seq<Post>, likes: seq<Like>, users: seq<User>, caller: int)
    ensures forall n :: n in Notifications(posts, likes, users, caller) ==>
              && OwnedBy(posts, n.postId, caller)
              && n.userId != caller
              && Like(n.userId, n.postId) in likes
              && n.username == UsernameOf(users, n.userId)
    ensures forall p, l :: p in posts && p.userId == caller && l in likes && l.postId == p.id && l.userId != caller ==>
              Notification(p.id, l.userId, UsernameOf(users, l.userId)) in Notifications(posts, likes, users, caller)
  {
    if posts != [] {
      NotificationsExactly(posts[1..], likes, users, caller);
      LikeEntriesExactly(posts[0], likes, users, caller);
      assert posts == [posts[0]] + posts[1..];
      forall n | n in Notifications(posts, likes, users, caller)
        ensures OwnedBy(posts, n.postId, caller)
      {
        if n in Notifications(posts[1..], likes, users, caller) {
          var p :| p in posts[1..] && p.id == n.postId && p.userId == caller;
          assert p in posts;
        } else {
          assert posts[0] in posts;
        }
      }
    }
  }

  lemma {:induction false} LikeEntriesNoDup(p: Post, likes: seq<Like>, users: seq<User>, caller: int)
    requires NoDup(likes)
    ensures NoDup(LikeEntries(p, likes, users, caller))
  {
    if likes != [] {
      NoDupTail(likes);
      NoDupHeadNotInTail(likes);
      LikeEntriesNoDup(p, likes[1..], users, caller);
      LikeEntriesExactly(p, likes[1..], users, caller);
      var head := if likes[0].postId == p.id && likes[0].userId != caller
                  then [Notification(p.id, likes[0].userId, UsernameOf(users, likes[0].userId))] else [];
      NoDupConcat(head, LikeEntries(p, likes[1..], users, caller));
    }
  }

  /** With unique post ids and at most one like row per pair, no entry is
      repeated: together with NotificationsExactly, each qualifying like
      yields exactly one entry. */
  lemma {:induction false} NotificationsNoDup(posts: seq<Post>, likes: seq<Like>, users: seq<User>, caller: int)
    requires UniquePostIds(posts) && NoDup(likes)
    ensures NoDup(Notifications(posts, likes, users, caller))
  {
    if posts != [] {
      var rest := posts[1..];
      assert UniquePostIds(rest) by {
        forall i, j | 0 <= i < j < |rest| ensures rest[i].id != rest[j].id {
          assert rest[i] == posts[i + 1] && rest[j] == posts[j + 1];
        }
      }
      NotificationsNoDup(rest, likes, users, caller);
      NotificationsExactly(rest, likes, users, caller);
      LikeEntriesNoDup(posts[0], likes, users, caller);
      LikeEntriesExactly(posts[0], likes, users, caller);
      var head := if posts[0].userId == caller then LikeEntries(posts[0], likes, users, caller) else [];
      assert forall q :: q in rest ==> q.id != posts[0].id by {
        forall q | q in rest ensures q.id != posts[0].id {
          var k :| 0 <= k < |rest| && rest[k] == q;
          assert posts[k + 1] == q;
        }
      }
      assert forall n :: n in head ==> n.postId == posts[0].id;
      NoDupConcat(head, Notifications(rest, likes, users, caller));
    }
  }

  /** The notification route: the guard's 401, or the caller's entries. */
  function NotificationRoute(token: Option<string>, decoded: Option<Claims>,
                             posts: seq<Post>, likes: seq<Like>, users: seq<User>)
    : (r: Result<seq<Notification>, Reason>)
    ensures r.Ok? <==> Present(token) && decoded.Some?
    ensures r.Err? ==> Status(r.error) == 401
  {
    match VerifyToken(token, decoded)
    case Err(e) => Err(e)
    case Ok(c) => Ok(Notifications(posts, likes, users, c.id))
  }

  /** What an authenticated caller receives: no entry names the caller as
      liker, every entry's post is one of the caller's, and each like by
      someone else on a post of the caller's appears. */
  lemma NotificationRouteExactly(token: Option<string>, decoded: Option<Claims>,
                                 posts: seq<Post>, likes: seq<Like>, users: seq<User>)
    requires Present(token) && decoded.Some?
    ensures var r := NotificationRoute(token, decoded, posts, likes, users);
      && r.Ok?
      && (forall n :: n in r.value ==>
            n.userId != decoded.value.id && OwnedBy(posts, n.postId, decoded.value.id)
            && Like(n.userId, n.postId) in likes)
      && (forall p, l :: p in posts && p.userId == decoded.value.id && l in likes && l.postId == p.id
                         && l.userId != decoded.value.id ==>
            Notification(p.id, l.userId, UsernameOf(users, l.userId)) in r.value)
  {
    NotificationsExactly(posts, likes, users, decoded.value.id);
  }

  /** The scenario: alice (id 1) likes post 5 owned by bob (id 2); bob's
      notifications are exactly one entry naming alice. */
  lemma NotificationScenario()
    ensures var users := [NewUser(1, "a@x.com", "alice", "Passw0rd!"), NewUser(2, "b@x.com", "bob", "pw")];
            var posts := [Post(5, ImagePath("p.png"), "", 0, 0, 2)];
            Notifications(posts, [Like(1, 5)], users, 2) == [Notification(5, 1, "alice")]
  {
    var users := [NewUser(1, "a@x.com", "alice", "Passw0rd!"), NewUser(2, "b@x.com", "bob", "pw")];
    assert UserById(users, 1) == Some(users[0]);
  }
}
