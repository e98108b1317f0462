/** Likes on community posts and comments: two like tables, one per kind of
    target, each holding at most one like per (target, user) pair. */
module LikeService {
  import opened Wrappers
  import opened Repositories

  /** `LikeResponse` */
  datatype LikeResponse = LikeResponse(likeCount: nat, isLiked: bool)

  const PostNotFound := "게시글을 찾을 수 없습니다"
  const CommentNotFound := "댓글을 찾을 수 없습니다"
  const UserNotFound := "사용자를 찾을 수 없습니다"

  /** The query condition of `countByPostId` / `countByCommentId`. */
  function OnTarget(target: Id): Like -> bool {
    (l: Like) => l.targetId == target
  }

  /** The query condition of `findByPostIdAndUserId` / `findByCommentIdAndUserId`. */
  function IsPair(target: Id, user: Id): Like -> bool {
    (l: Like) => l == Like(target, user)
  }

  /** `existsByPostIdAndUserId` / `existsByCommentIdAndUserId` */
  predicate Liked(rows: seq<Row<Like>>, target: Id, user: Id) {
    exists i :: 0 <= i < |rows| && rows[i].value == Like(target, user)
  }

  /** The table invariant the service keeps: no pair is stored twice. */
  predicate AtMostOnePerPair(rows: seq<Row<Like>>) {
    forall i, j :: 0 <= i < j < |rows| ==> rows[i].value != rows[j].value
  }

  /** `getPostLikeResponse` / `getCommentLikeResponse`: the target's like
      count and whether this user likes it. */
  function ResponseFor(rows: seq<Row<Like>>, target: Id, user: Id): LikeResponse {
    LikeResponse(CountWhere(rows, OnTarget(target)), Liked(rows, target, user))
  }

  /** The like table after a like of an existing target by an existing user:
      unchanged when the pair is already there, else one new row. */
  function AfterLike(rows: seq<Row<Like>>, nextId: Id, target: Id, user: Id): seq<Row<Like>> {
    if Liked(rows, target, user) then rows else rows + [Row(nextId, Like(target, user))]
  }

  /** The like table after an unlike: the pair's row removed when there is one. */
  function AfterUnlike(rows: seq<Row<Like>>, target: Id, user: Id): seq<Row<Like>> {
    match FirstWhere(rows, IsPair(target, user))
    case None => rows
    case Some(k) => rows[..k] + rows[k + 1..]
  }

  /** The pair-finding query agrees with `Liked`. */
  lemma FirstPairIffLiked(rows: seq<Row<Like>>, target: Id, user: Id)
    ensures FirstWhere(rows, IsPair(target, user)).Some? <==> Liked(rows, target, user)
  {
    if Liked(rows, target, user) {
      var i :| 0 <= i < |rows| && rows[i].value == Like(target, user);
      assert IsPair(target, user)(rows[i].value);
    }
  }

  /** A like leaves the pair liked, adds one to the target's count exactly
      when the pair was not liked before, keeps every other pair as it was
      and keeps the table free of duplicate pairs. */
  lemma LikeEffect(rows: seq<Row<Like>>, nextId: Id, target: Id, user: Id)
    ensures Liked(AfterLike(rows, nextId, target, user), target, user)
    ensures CountWhere(AfterLike(rows, nextId, target, user), OnTarget(target))
      == CountWhere(rows, OnTarget(target)) + (if Liked(rows, target, user) then 0 else 1)
    ensures forall t, u :: (t, u) != (target, user) ==>
      (Liked(AfterLike(rows, nextId, target, user), t, u) <==> Liked(rows, t, u))
    ensures AtMostOnePerPair(rows) ==> AtMostOnePerPair(AfterLike(rows, nextId, target, user))
  {
    if !Liked(rows, target, user) {
      var after := AfterLike(rows, nextId, target, user);
      assert after[|rows|].value == Like(target, user);
      CountAppend(rows, Row(nextId, Like(target, user)), OnTarget(target));
      forall t, u | Liked(after, t, u) && (t, u) != (target, user)
        ensures Liked(rows, t, u)
      {
        var i :| 0 <= i < |after| && after[i].value == Like(t, u);
        assert i < |rows|;
      }
      forall t, u | Liked(rows, t, u)
        ensures Liked(after, t, u)
      {
        var i :| 0 <= i < |rows| && rows[i].value == Like(t, u);
        assert after[i] == rows[i];
      }
    }
  }

  /** Liking twice is liking once. */
  lemma LikeIsIdempotent(rows: seq<Row<Like>>, nextId: Id, laterId: Id, target: Id, user: Id)
    ensures AfterLike(AfterLike(rows, nextId, target, user), laterId, target, user)
      == AfterLike(rows, nextId, target, user)
  {
    LikeEffect(rows, nextId, target, user);
  }

  /** On a table without duplicate pairs, an unlike leaves the pair not
      liked, takes one from the target's count exactly when the pair was
      liked, keeps every other pair as it was and keeps the invariant. */
  lemma UnlikeEffect(rows: seq<Row<Like>>, target: Id, user: Id)
    requires AtMostOnePerPair(rows)
    ensures !Liked(AfterUnlike(rows, target, user), target, user)
    ensures CountWhere(AfterUnlike(rows, target, user), OnTarget(target)) + (if Liked(rows, target, user) then 1 else 0)
      == CountWhere(rows, OnTarget(target))
    ensures forall t, u :: (t, u) != (target, user) ==>
      (Liked(AfterUnlike(rows, target, user), t, u) <==> Liked(rows, t, u))
    ensures AtMostOnePerPair(AfterUnlike(rows, target, user))
  {
    FirstPairIffLiked(rows, target, user);
    var found := FirstWhere(rows, IsPair(target, user));
    if found.Some? {
      var k := found.value;
      var after := rows[..k] + rows[k + 1..];
      assert forall i :: 0 <= i < k ==> after[i] == rows[i];
      assert forall i :: k <= i < |after| ==> after[i] == rows[i + 1];
      CountRemove(rows, k, OnTarget(target));
      assert rows[k].value == Like(target, user);
      forall i | 0 <= i < |after|
        ensures after[i].value != Like(target, user)
      {
        if i >= k {
          assert after[i] == rows[i + 1];
        }
      }
      forall t, u | Liked(rows, t, u) && (t, u) != (target, user)
        ensures Liked(after, t, u)
      {
        var i :| 0 <= i < |rows| && rows[i].value == Like(t, u);
        if i < k {
          assert after[i] == rows[i];
        } else {
          assert i != k;
          assert after[i - 1] == rows[i];
        }
      }
      forall t, u | Liked(after, t, u)
        ensures Liked(rows, t, u)
      {
        var i :| 0 <= i < |after| && after[i].value == Like(t, u);
        if i < k {
          assert after[i] == rows[i];
        } else {
          assert after[i] == rows[i + 1];
        }
      }
      forall i, j | 0 <= i < j < |after|
        ensures after[i].value != after[j].value
      {
        var i' := if i < k then i else i + 1;
        var j' := if j < k then j else j + 1;
        assert after[i] == rows[i'] && after[j] == rows[j'] && i' < j';
      }
    }
  }

  /** Unliking a pair that was just liked for the first time restores the
      table. */
  lemma LikeThenUnlikeRestores(rows: seq<Row<Like>>, nextId: Id, target: Id, user: Id)
    requires AtMostOnePerPair(rows) && !Liked(rows, target, user)
    ensures AfterUnlike(AfterLike(rows, nextId, target, user), target, user) == rows
  {
    var after := rows + [Row(nextId, Like(target, user))];
    var found := FirstWhere(after, IsPair(target, user));
    FirstPairIffLiked(after, target, user);
    assert after[|rows|].value == Like(target, user);
    var k := found.value;
    assert after[..k] == rows;
  }

  /** Unliking a pair that is not liked changes nothing. */
  lemma UnlikeWithoutLikeIsNoOp(rows: seq<Row<Like>>, target: Id, user: Id)
    requires !Liked(rows, target, user)
    ensures AfterUnlike(rows, target, user) == rows
  {
    FirstPairIffLiked(rows, target, user);
  }

  class LikeService {
    const posts: Table<Post>
    const comments: Table<Comment>
    const users: Table<User>
    const postLikes: Table<Like>
    const commentLikes: Table<Like>

    ghost predicate Valid()
      reads this, posts, comments, users, postLikes, commentLikes
    {
      posts.Valid() && comments.Valid() && users.Valid() && postLikes.Valid() && commentLikes.Valid()
      && postLikes != commentLikes
      && AtMostOnePerPair(postLikes.rows) && AtMostOnePerPair(commentLikes.rows)
    }

    constructor (posts: Table<Post>, comments: Table<Comment>, users: Table<User>,
                 postLikes: Table<Like>, commentLikes: Table<Like>)
      requires posts.Valid() && comments.Valid() && users.Valid() && postLikes.Valid() && commentLikes.Valid()
      requires postLikes != commentLikes
      requires AtMostOnePerPair(postLikes.rows) && AtMostOnePerPair(commentLikes.rows)
      ensures Valid()
      ensures this.posts == posts && this.comments == comments && this.users == users
      ensures this.postLikes == postLikes && this.commentLikes == commentLikes
    {
      this.posts := posts;
      this.comments := comments;
      this.users := users;
      this.postLikes := postLikes;
      this.commentLikes := commentLikes;
    }

    /** `likePost`: an unknown post, then an unknown user, fails with nothing
        stored; otherwise the pair is liked (added once, never twice) and the
        response reports it. The comment likes are untouched. */
    method LikePost(postId: Id, userId: Id) returns (r: Result<LikeResponse>)
      requires Valid()
      modifies postLikes
      ensures Valid()
      ensures commentLikes.rows == old(commentLikes.rows)
      ensures FindById(posts.rows, postId).None? ==>
        r == Err(PostNotFound) && postLikes.rows == old(postLikes.rows)
      ensures FindById(posts.rows, postId).Some? && FindById(users.rows, userId).None? ==>
        r == Err(UserNotFound) && postLikes.rows == old(postLikes.rows)
      ensures FindById(posts.rows, postId).Some? && FindById(users.rows, userId).Some? ==>
        postLikes.rows == AfterLike(old(postLikes.rows), old(postLikes.nextId), postId, userId)
        && r == Ok(ResponseFor(postLikes.rows, postId, userId)) && r.value.isLiked
    {
      if FindById(posts.rows, postId).None? {
        return Err(PostNotFound);
      }
      if FindById(users.rows, userId).None? {
        return Err(UserNotFound);
      }
      LikeEffect(postLikes.rows, postLikes.nextId, postId, userId);
      if !Liked(postLikes.rows, postId, userId) {
        var _ := postLikes.Insert(Like(postId, userId));
      }
      r := Ok(ResponseFor(postLikes.rows, postId, userId));
    }

    /** `unlikePost`: no existence checks; the pair's like is removed if
        present, and the response reports the pair as not liked. */
    method UnlikePost(postId: Id, userId: Id) returns (r: LikeResponse)
      requires Valid()
      modifies postLikes
      ensures Valid()
      ensures commentLikes.rows == old(commentLikes.rows)
      ensures postLikes.rows == AfterUnlike(old(postLikes.rows), postId, userId)
      ensures r == ResponseFor(postLikes.rows, postId, userId) && !r.isLiked
    {
      UnlikeEffect(postLikes.rows, postId, userId);
      var found := FirstWhere(postLikes.rows, IsPair(postId, userId));
      if found.Some? {
        postLikes.Delete(found.value);
      }
      r := ResponseFor(postLikes.rows, postId, userId);
    }

    /** `likeComment`: the post rules on the comment-like table. */
    method LikeComment(commentId: Id, userId: Id) returns (r: Result<LikeResponse>)
      requires Valid()
      modifies commentLikes
      ensures Valid()
      ensures postLikes.rows == old(postLikes.rows)
      ensures FindById(comments.rows, commentId).None? ==>
        r == Err(CommentNotFound) && commentLikes.rows == old(commentLikes.rows)
      ensures FindById(comments.rows, commentId).Some? && FindById(users.rows, userId).None? ==>
        r == Err(UserNotFound) && commentLikes.rows == old(commentLikes.rows)
      ensures FindById(comments.rows, commentId).Some? && FindById(users.rows, userId).Some? ==>
        commentLikes.rows == AfterLike(old(commentLikes.rows), old(commentLikes.nextId), commentId, userId)
        && r == Ok(ResponseFor(commentLikes.rows, commentId, userId)) && r.value.isLiked
    {
      if FindById(comments.rows, commentId).None? {
        return Err(CommentNotFound);
      }
      if FindById(users.rows, userId).None? {
        return Err(UserNotFound);
      }
      LikeEffect(commentLikes.rows, commentLikes.nextId, commentId, userId);
      if !Liked(commentLikes.rows, commentId, userId) {
        var _ := commentLikes.Insert(Like(commentId, userId));
      }
      r := Ok(ResponseFor(commentLikes.rows, commentId, userId));
    }

    /** `unlikeComment` */
    method UnlikeComment(commentId: Id, userId: Id) returns (r: LikeResponse)
      requires Valid()
      modifies commentLikes
      ensures Valid()
      ensures postLikes.rows == old(postLikes.rows)
      ensures commentLikes.rows == AfterUnlike(old(commentLikes.rows), commentId, userId)
      ensures r == ResponseFor(commentLikes.rows, commentId, userId) && !r.isLiked
    {
      UnlikeEffect(commentLikes.rows, commentId, userId);
      var found := FirstWhere(commentLikes.rows, IsPair(commentId, userId));
      if found.Some? {
        commentLikes.Delete(found.value);
      }
      r := ResponseFor(commentLikes.rows, commentId, userId);
    }
  }
}
