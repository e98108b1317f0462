/** Comments on community posts: creation with content screening,
    author-only update and deletion, and the paged listing of a post's
    comments oldest first. */
module CommentService {
  import opened Wrappers
  import opened Repositories
  import LikeService

  const UserNotFound := "사용자를 찾을 수 없습니다"
  const PostNotFound := "게시글을 찾을 수 없습니다"
  const CommentNotFound := "댓글을 찾을 수 없습니다"
  const InappropriateContent := "부적절한 내용이 포함되어 있습니다"
  const UpdateForbidden := "댓글 수정 권한이 없습니다"
  const DeleteForbidden := "댓글 삭제 권한이 없습니다"
  /** The messages `PageRequest.of` rejects a bad page index or size with. */
  const PageIndexNegative := "Page index must not be less than zero"
  const PageSizeNotPositive := "Page size must not be less than one"

  /** `CommentResponse`; `authorNickname` is None when the author row is
      missing. */
  datatype CommentResponse = CommentResponse(
    id: Id, postId: Id, authorId: Id, authorNickname: Option<string>, content: string,
    likeCount: nat, isLiked: bool, createdAt: int)

  /** `toResponse`: the comment with its like count, and whether `userId`
      (when given) likes it. */
  function ToResponse(comment: Row<Comment>, users: seq<Row<User>>, likes: seq<Row<Like>>, userId: Option<Id>): CommentResponse {
    var author := FindById(users, comment.value.authorId);
    CommentResponse(
      comment.id, comment.value.postId, comment.value.authorId,
      if author.Some? then Some(author.value.nickname) else None,
      comment.value.content,
      CountWhere(likes, LikeService.OnTarget(comment.id)),
      userId.Some? && LikeService.Liked(likes, comment.id, userId.value),
      comment.value.createdAt)
  }

  /** A response without a user never reports a like; a liked comment is
      counted at least once. */
  lemma ResponseLikes(comment: Row<Comment>, users: seq<Row<User>>, likes: seq<Row<Like>>, userId: Option<Id>)
    ensures userId.None? ==> !ToResponse(comment, users, likes, userId).isLiked
    ensures ToResponse(comment, users, likes, userId).isLiked ==>
      userId.Some? && ToResponse(comment, users, likes, userId).likeCount >= 1
  {
    if userId.Some? && LikeService.Liked(likes, comment.id, userId.value) {
      var i :| 0 <= i < |likes| && likes[i].value == Like(comment.id, userId.value);
      assert LikeService.OnTarget(comment.id)(likes[i].value);
    }
  }

  /** `comment.getAuthor().getUsername().equals(username)` */
  predicate IsAuthor(users: seq<Row<User>>, authorId: Id, username: string) {
    var author := FindById(users, authorId);
    author.Some? && author.value.username == username
  }

  function OnPost(postId: Id): Comment -> bool {
    (c: Comment) => c.postId == postId
  }

  predicate SortedByCreatedAt(rows: seq<Row<Comment>>) {
    forall i, j :: 0 <= i < j < |rows| ==> rows[i].value.createdAt <= rows[j].value.createdAt
  }

  /** Places `c` before the first comment created no earlier than it. */
  function InsertByCreatedAt(c: Row<Comment>, sorted: seq<Row<Comment>>): seq<Row<Comment>>
    decreases |sorted|
  {
    if sorted == [] || c.value.createdAt <= sorted[0].value.createdAt then [c] + sorted
    else [sorted[0]] + InsertByCreatedAt(c, sorted[1..])
  }

  /** The order of `Sort.by(ASC, "createdAt")`. */
  function SortByCreatedAt(rows: seq<Row<Comment>>): seq<Row<Comment>>
    decreases |rows|
  {
    if rows == [] then [] else InsertByCreatedAt(rows[0], SortByCreatedAt(rows[1..]))
  }

  lemma {:induction false} InsertByCreatedAtKeepsComments(c: Row<Comment>, sorted: seq<Row<Comment>>)
    ensures multiset(InsertByCreatedAt(c, sorted)) == multiset(sorted) + multiset{c}
    decreases |sorted|
  {
    if sorted != [] && c.value.createdAt > sorted[0].value.createdAt {
      InsertByCreatedAtKeepsComments(c, sorted[1..]);
      assert sorted == [sorted[0]] + sorted[1..];
    }
  }

  lemma {:induction false} InsertByCreatedAtKeepsOrder(c: Row<Comment>, sorted: seq<Row<Comment>>)
    requires SortedByCreatedAt(sorted)
    ensures SortedByCreatedAt(InsertByCreatedAt(c, sorted))
    decreases |sorted|
  {
    if sorted != [] && c.value.createdAt > sorted[0].value.createdAt {
      var rest := InsertByCreatedAt(c, sorted[1..]);
      InsertByCreatedAtKeepsOrder(c, sorted[1..]);
      InsertByCreatedAtKeepsComments(c, sorted[1..]);
      forall x: Row<Comment> | x in rest
        ensures sorted[0].value.createdAt <= x.value.createdAt
      {
        assert x in multiset(rest);
        assert x in multiset(sorted[1..]) + multiset{c};
      }
      assert InsertByCreatedAt(c, sorted) == [sorted[0]] + rest;
    }
  }

  /** The sort orders the comments by creation time and keeps exactly the
      comments it was given. */
  lemma {:induction false} SortByCreatedAtSpec(rows: seq<Row<Comment>>)
    ensures SortedByCreatedAt(SortByCreatedAt(rows))
    ensures multiset(SortByCreatedAt(rows)) == multiset(rows)
    decreases |rows|
  {
    if rows != [] {
      SortByCreatedAtSpec(rows[1..]);
      InsertByCreatedAtKeepsOrder(rows[0], SortByCreatedAt(rows[1..]));
      InsertByCreatedAtKeepsComments(rows[0], SortByCreatedAt(rows[1..]));
      assert rows == [rows[0]] + rows[1..];
    }
  }

  /** The responses for a run of comments, in order. */
  function Responses(rows: seq<Row<Comment>>, users: seq<Row<User>>, likes: seq<Row<Like>>, userId: Option<Id>): (r: seq<CommentResponse>)
    ensures |r| == |rows|
    ensures forall k :: 0 <= k < |r| ==> r[k] == ToResponse(rows[k], users, likes, userId)
  {
    seq(|rows|, k requires 0 <= k < |rows| => ToResponse(rows[k], users, likes, userId))
  }

  /** `getCommentsByPostIdWithPagination`: a negative page index or a size
      below one is refused by `PageRequest.of`; otherwise the page of the
      post's comments in creation order. */
  function GetCommentsByPostIdWithPagination(comments: seq<Row<Comment>>, users: seq<Row<User>>, likes: seq<Row<Like>>,
                                             postId: Id, page: int, size: int, userId: Option<Id>): (r: Result<seq<CommentResponse>>)
    ensures page < 0 ==> r == Err(PageIndexNegative)
    ensures page >= 0 && size < 1 ==> r == Err(PageSizeNotPositive)
    ensures r.Ok? ==> page >= 0 && size >= 1 && |r.value| <= size
  {
    if page < 0 then Err(PageIndexNegative)
    else if size < 1 then Err(PageSizeNotPositive)
    else Ok(Responses(PageOf(SortByCreatedAt(RowsWhere(comments, OnPost(postId))), page, size), users, likes, userId))
  }

  /** The rows of a page are stored comments of the post, oldest first. */
  lemma PageRowsOfPost(comments: seq<Row<Comment>>, postId: Id, page: nat, size: nat)
    ensures forall row :: row in PageOf(SortByCreatedAt(RowsWhere(comments, OnPost(postId))), page, size) ==>
      row in comments && row.value.postId == postId
    ensures SortedByCreatedAt(PageOf(SortByCreatedAt(RowsWhere(comments, OnPost(postId))), page, size))
  {
    var ofPost := RowsWhere(comments, OnPost(postId));
    var sorted := SortByCreatedAt(ofPost);
    SortByCreatedAtSpec(ofPost);
    var start, end := PageIsARun(sorted, page, size);
    var rows := sorted[start..end];
    forall row | row in rows
      ensures row in ofPost
    {
      assert row in multiset(sorted);
    }
    forall k, l | 0 <= k < l < |rows|
      ensures rows[k].value.createdAt <= rows[l].value.createdAt
    {
      assert rows[k] == sorted[start + k] && rows[l] == sorted[start + l];
    }
  }

  /** A page holds comments of that post only, each a stored comment, oldest
      first. */
  lemma PagedCommentsAreOrdered(comments: seq<Row<Comment>>, users: seq<Row<User>>, likes: seq<Row<Like>>,
                                postId: Id, page: int, size: int, userId: Option<Id>)
    requires GetCommentsByPostIdWithPagination(comments, users, likes, postId, page, size, userId).Ok?
    ensures var r := GetCommentsByPostIdWithPagination(comments, users, likes, postId, page, size, userId).value;
      (forall k :: 0 <= k < |r| ==> r[k].postId == postId)
      && (forall k :: 0 <= k < |r| ==> exists row :: row in comments && row.id == r[k].id && row.value.createdAt == r[k].createdAt)
      && (forall k, l :: 0 <= k < l < |r| ==> r[k].createdAt <= r[l].createdAt)
  {
    var rows := PageOf(SortByCreatedAt(RowsWhere(comments, OnPost(postId))), page, size);
    PageRowsOfPost(comments, postId, page, size);
    var r := GetCommentsByPostIdWithPagination(comments, users, likes, postId, page, size, userId).value;
    assert r == Responses(rows, users, likes, userId);
    forall k | 0 <= k < |r|
      ensures r[k].postId == postId
      ensures exists row :: row in comments && row.id == r[k].id && row.value.createdAt == r[k].createdAt
    {
      assert rows[k] in rows;
    }
  }

  /** Every comment of the post appears in the sorted run exactly as often as
      it is stored, so paging through it shows each one once. */
  lemma SortedRunHoldsThePostsComments(comments: seq<Row<Comment>>, postId: Id)
    ensures multiset(SortByCreatedAt(RowsWhere(comments, OnPost(postId)))) == multiset(RowsWhere(comments, OnPost(postId)))
    ensures forall row :: row in SortByCreatedAt(RowsWhere(comments, OnPost(postId))) <==> row in comments && row.value.postId == postId
  {
    var ofPost := RowsWhere(comments, OnPost(postId));
    SortByCreatedAtSpec(ofPost);
    forall row: Row<Comment>
      ensures row in SortByCreatedAt(ofPost) <==> row in ofPost
    {
      assert row in SortByCreatedAt(ofPost) <==> row in multiset(SortByCreatedAt(ofPost));
      assert row in ofPost <==> row in multiset(ofPost);
    }
  }

  class CommentService {
    const comments: Table<Comment>
    const commentLikes: Table<Like>
    const posts: Table<Post>
    const users: Table<User>

    ghost predicate Valid()
      reads this, comments, commentLikes, posts, users
    {
      comments.Valid() && commentLikes.Valid() && posts.Valid() && users.Valid()
    }

    constructor (comments: Table<Comment>, commentLikes: Table<Like>, posts: Table<Post>, users: Table<User>)
      requires comments.Valid() && commentLikes.Valid() && posts.Valid() && users.Valid()
      ensures Valid()
      ensures this.comments == comments && this.commentLikes == commentLikes && this.posts == posts && this.users == users
    {
      this.comments := comments;
      this.commentLikes := commentLikes;
      this.posts := posts;
      this.users := users;
    }

    /** `createComment`: an unknown author, then a missing post, then content
        the screening rejects fails with nothing saved; otherwise the comment
        is saved under the next identity, stamped with `now`, and the
        response reports it as not liked. */
    method CreateComment(username: string, postId: Id, content: string, validateContent: string -> bool, now: int)
      returns (r: Result<CommentResponse>)
      requires Valid()
      modifies comments
      ensures Valid()
      ensures FindByUsername(users.rows, username).None? ==>
        r == Err(UserNotFound) && comments.rows == old(comments.rows)
      ensures FindByUsername(users.rows, username).Some? && FindById(posts.rows, postId).None? ==>
        r == Err(PostNotFound) && comments.rows == old(comments.rows)
      ensures FindByUsername(users.rows, username).Some? && FindById(posts.rows, postId).Some? && !validateContent(content) ==>
        r == Err(InappropriateContent) && comments.rows == old(comments.rows)
      ensures FindByUsername(users.rows, username).Some? && FindById(posts.rows, postId).Some? && validateContent(content) ==>
        comments.rows == old(comments.rows) + [Row(old(comments.nextId),
          Comment(postId, FindByUsername(users.rows, username).value.id, content, now))]
        && r == Ok(ToResponse(comments.rows[|comments.rows| - 1], users.rows, commentLikes.rows, None))
      ensures r.Ok? ==> !r.value.isLiked && r.value.postId == postId && r.value.content == content
    {
      var author := FindByUsername(users.rows, username);
      if author.None? {
        return Err(UserNotFound);
      }
      if FindById(posts.rows, postId).None? {
        return Err(PostNotFound);
      }
      if !validateContent(content) {
        return Err(InappropriateContent);
      }
      var id := comments.Insert(Comment(postId, author.value.id, content, now));
      ResponseLikes(comments.rows[|comments.rows| - 1], users.rows, commentLikes.rows, None);
      r := Ok(ToResponse(comments.rows[|comments.rows| - 1], users.rows, commentLikes.rows, None));
    }

    /** `updateComment`: a missing comment, then a caller who is not the
        author, then rejected content fails with nothing changed; otherwise
        only that comment's content changes, and the response is that of the
        updated comment as seen by the caller. */
    method UpdateComment(commentId: Id, username: string, content: string, validateContent: string -> bool)
      returns (r: Result<CommentResponse>)
      requires Valid()
      modifies comments
      ensures Valid()
      ensures IndexOfId(old(comments.rows), commentId).None? ==>
        r == Err(CommentNotFound) && comments.rows == old(comments.rows)
      ensures IndexOfId(old(comments.rows), commentId).Some? ==>
        var k := IndexOfId(old(comments.rows), commentId).value;
        var before := old(comments.rows)[k].value;
        (!IsAuthor(users.rows, before.authorId, username) ==>
           r == Err(UpdateForbidden) && comments.rows == old(comments.rows))
        && (IsAuthor(users.rows, before.authorId, username) && !validateContent(content) ==>
           r == Err(InappropriateContent) && comments.rows == old(comments.rows))
        && (IsAuthor(users.rows, before.authorId, username) && validateContent(content) ==>
           comments.rows == old(comments.rows)[k := Row(commentId, before.(content := content))]
           && r == Ok(ToResponse(comments.rows[k], users.rows, commentLikes.rows, CallerId(users.rows, username))))
    {
      var found := IndexOfId(comments.rows, commentId);
      if found.None? {
        return Err(CommentNotFound);
      }
      var k := found.value;
      var before := comments.rows[k].value;
      if !IsAuthor(users.rows, before.authorId, username) {
        return Err(UpdateForbidden);
      }
      if !validateContent(content) {
        return Err(InappropriateContent);
      }
      comments.Update(k, before.(content := content));
      r := Ok(ToResponse(comments.rows[k], users.rows, commentLikes.rows, CallerId(users.rows, username)));
    }

    /** `deleteComment`: a missing comment or a caller who is not the author
        fails with the comment kept; otherwise that comment, and only it, is
        removed. */
    method DeleteComment(commentId: Id, username: string) returns (r: Result<()>)
      requires Valid()
      modifies comments
      ensures Valid()
      ensures IndexOfId(old(comments.rows), commentId).None? ==>
        r == Err(CommentNotFound) && comments.rows == old(comments.rows)
      ensures IndexOfId(old(comments.rows), commentId).Some? ==>
        var k := IndexOfId(old(comments.rows), commentId).value;
        (!IsAuthor(users.rows, old(comments.rows)[k].value.authorId, username) ==>
           r == Err(DeleteForbidden) && comments.rows == old(comments.rows))
        && (IsAuthor(users.rows, old(comments.rows)[k].value.authorId, username) ==>
           r == Ok(()) && comments.rows == old(comments.rows)[..k] + old(comments.rows)[k + 1..])
      ensures r.Ok? ==> FindById(comments.rows, commentId).None?
    {
      var found := IndexOfId(comments.rows, commentId);
      if found.None? {
        return Err(CommentNotFound);
      }
      var k := found.value;
      if !IsAuthor(users.rows, comments.rows[k].value.authorId, username) {
        return Err(DeleteForbidden);
      }
      comments.Delete(k);
      forall i | 0 <= i < |comments.rows|
        ensures comments.rows[i].id != commentId
      {
        if i < k {
          assert comments.rows[i] == old(comments.rows)[i];
        } else {
          assert comments.rows[i] == old(comments.rows)[i + 1];
        }
      }
      r := Ok(());
    }
  }
}
