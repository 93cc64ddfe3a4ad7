/** The like ledger of back/index.ts: the userLike table as a sequence of
    rows, the per-post count the posts listing asks the store for, and
    the row removal the unlike handler performs. */
module BackLedger {
  import opened Common
  import opened BackModel

  /** userLike.count({ where: { postId } }). */
  function CountLikes(likes: seq<Like>, postId: int): (n: nat)
    ensures n <= |likes|
    ensures n == 0 <==> forall l :: l in likes ==> l.postId != postId
  {
    if likes == [] then 0
    else (if likes[0].postId == postId then 1 else 0) + CountLikes(likes[1..], postId)
  }

  /** userLike.delete on the (userId, postId) key: the table without that row. */
  function RemoveLike(likes: seq<Like>, l: Like): (r: seq<Like>)
    ensures forall x :: x in r <==> x in likes && x != l
    ensures |r| <= |likes|
  {
    if likes == [] then []
    else if likes[0] == l then RemoveLike(likes[1..], l)
    else [likes[0]] + RemoveLike(likes[1..], l)
  }

  /** Inserting a like row raises the count of its post by one and leaves
      every other post's count alone. */
  lemma {:induction false} CountAfterInsert(likes: seq<Like>, l: Like, q: int)
    ensures CountLikes(likes + [l], q) == CountLikes(likes, q) + (if l.postId == q then 1 else 0)
  {
    if likes == [] {
      assert likes + [l] == [l];
    } else {
      assert (likes + [l])[1..] == likes[1..] + [l];
      CountAfterInsert(likes[1..], l, q);
    }
  }

  lemma {:induction false} RemoveAbsentLike(likes: seq<Like>, l: Like)
    requires l !in likes
    ensures RemoveLike(likes, l) == likes
  {
    if likes != [] {
      RemoveAbsentLike(likes[1..], l);
    }
  }

  /** In a table with at most one row per pair, removing a present pair
      removes exactly that one row: the multiset of rows loses one copy of
      it and nothing else. */
  lemma {:induction false} RemoveExactlyOne(likes: seq<Like>, l: Like)
    requires NoDup(likes) && l in likes
    ensures multiset(RemoveLike(likes, l)) == multiset(likes) - multiset{l}
    ensures |RemoveLike(likes, l)| == |likes| - 1
  {
    assert likes == [likes[0]] + likes[1..];
    if likes[0] == l {
      NoDupHeadNotInTail(likes);
      RemoveAbsentLike(likes[1..], l);
    } else {
      NoDupTail(likes);
      RemoveExactlyOne(likes[1..], l);
    }
  }

  /** Removing a row keeps the table free of duplicate pairs. */
  lemma {:induction false} RemoveKeepsNoDup(likes: seq<Like>, l: Like)
    requires NoDup(likes)
    ensures NoDup(RemoveLike(likes, l))
  {
    if likes != [] {
      NoDupTail(likes);
      RemoveKeepsNoDup(likes[1..], l);
      if likes[0] != l {
        NoDupHeadNotInTail(likes);
        NoDupConcat([likes[0]], RemoveLike(likes[1..], l));
      }
    }
  }

  /** Removing a present row lowers the count of its post by one and
      leaves every other post's count alone. */
  lemma {:induction false} CountAfterRemove(likes: seq<Like>, l: Like, q: int)
    requires NoDup(likes) && l in likes
    ensures CountLikes(RemoveLike(likes, l), q) == CountLikes(likes, q) - (if l.postId == q then 1 else 0)
  {
    if likes[0] == l {
      NoDupHeadNotInTail(likes);
      RemoveAbsentLike(likes[1..], l);
    } else {
      NoDupTail(likes);
      assert l in likes[1..] by {
        var k :| 0 <= k < |likes| && likes[k] == l;
        assert likes[1..][k - 1] == l;
      }
      CountAfterRemove(likes[1..], l, q);
      var r := RemoveLike(likes[1..], l);
      assert ([likes[0]] + r)[1..] == r;
    }
  }

  /** Inserting a pair that is absent keeps at most one row per pair. */
  lemma InsertKeepsNoDup(likes: seq<Like>, l: Like)
    requires NoDup(likes) && l !in likes
    ensures NoDup(likes + [l])
  {
    NoDupConcat(likes, [l]);
  }
}
