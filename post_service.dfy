/** Community posts: creation with content screening, author-only update and
    deletion, and the category-filtered listing. */
module PostService {
  import opened Wrappers
  import opened Repositories
  import LikeService

  const DefaultCategory := "자유게시판"
  const UserNotFound := "사용자를 찾을 수 없습니다"
  const PostNotFound := "게시글을 찾을 수 없습니다"
  const InappropriateContent := "부적절한 내용이 포함되어 있습니다"
  const UpdateForbidden := "게시글 수정 권한이 없습니다"
  const DeleteForbidden := "게시글 삭제 권한이 없습니다"

  /** `PostResponse` without its timestamps; `authorNickname` is None when
      the author row is missing. */
  datatype PostResponse = PostResponse(
    id: Id, authorId: Id, authorNickname: Option<string>, title: string, content: string,
    category: string, likeCount: nat, isLiked: bool)

  /** `toResponse`: the post with its like count, and whether `userId` (when
      given) likes it. */
  function ToResponse(post: Row<Post>, users: seq<Row<User>>, likes: seq<Row<Like>>, userId: Option<Id>): PostResponse {
    var author := FindById(users, post.value.authorId);
    PostResponse(
      post.id, post.value.authorId, if author.Some? then Some(author.value.nickname) else None,
      post.value.title, post.value.content, post.value.category,
      CountWhere(likes, LikeService.OnTarget(post.id)),
      userId.Some? && LikeService.Liked(likes, post.id, userId.value))
  }

  /** A response without a user never reports a like; a liked post is
      counted at least once. */
  lemma ResponseLikes(post: Row<Post>, users: seq<Row<User>>, likes: seq<Row<Like>>, userId: Option<Id>)
    ensures userId.None? ==> !ToResponse(post, users, likes, userId).isLiked
    ensures ToResponse(post, users, likes, userId).isLiked ==>
      userId.Some? && ToResponse(post, users, likes, userId).likeCount >= 1
  {
    if userId.Some? && LikeService.Liked(likes, post.id, userId.value) {
      var i :| 0 <= i < |likes| && likes[i].value == Like(post.id, userId.value);
      assert LikeService.OnTarget(post.id)(likes[i].value);
    }
  }

  /** `post.getAuthor().getUsername().equals(username)` */
  predicate IsAuthor(users: seq<Row<User>>, authorId: Id, username: string) {
    var author := FindById(users, authorId);
    author.Some? && author.value.username == username
  }

  function InCategory(category: string): Post -> bool {
    (p: Post) => p.category == category
  }

  /** The rows `getAllPosts` lists before paging: those of the category when
      one is given and non-empty, else every post. */
  function ListedPosts(posts: seq<Row<Post>>, category: Option<string>): (r: seq<Row<Post>>)
    ensures category.Some? && category.value != [] ==>
      forall row :: row in r <==> row in posts && row.value.category == category.value
    ensures category.None? || category.value == [] ==> r == posts
  {
    if category.Some? && category.value != [] then RowsWhere(posts, InCategory(category.value)) else posts
  }

  /** The responses for a run of posts, in order. */
  function Responses(rows: seq<Row<Post>>, users: seq<Row<User>>, likes: seq<Row<Like>>, userId: Option<Id>): (r: seq<PostResponse>)
    ensures |r| == |rows|
    ensures forall k :: 0 <= k < |r| ==> r[k] == ToResponse(rows[k], users, likes, userId)
  {
    seq(|rows|, k requires 0 <= k < |rows| => ToResponse(rows[k], users, likes, userId))
  }

  /** `getAllPosts`: one page of the listed posts, as responses for `userId`. */
  function GetAllPosts(posts: seq<Row<Post>>, users: seq<Row<User>>, likes: seq<Row<Like>>,
                       category: Option<string>, userId: Option<Id>, page: nat, size: nat): (r: seq<PostResponse>)
    ensures |r| <= size
  {
    Responses(PageOf(ListedPosts(posts, category), page, size), users, likes, userId)
  }

  /** With a non-empty category every listed post is of that category and
      is a stored post; without one the page is a page of all posts. */
  lemma ListingFilter(posts: seq<Row<Post>>, users: seq<Row<User>>, likes: seq<Row<Like>>,
                      category: Option<string>, userId: Option<Id>, page: nat, size: nat)
    ensures category.Some? && category.value != [] ==>
      forall k :: 0 <= k < |GetAllPosts(posts, users, likes, category, userId, page, size)| ==>
        GetAllPosts(posts, users, likes, category, userId, page, size)[k].category == category.value
        && exists row :: row in posts && row.id == GetAllPosts(posts, users, likes, category, userId, page, size)[k].id
    ensures category.None? || category.value == [] ==>
      GetAllPosts(posts, users, likes, category, userId, page, size)
        == Responses(PageOf(posts, page, size), users, likes, userId)
  {
    var listed := ListedPosts(posts, category);
    var rows := PageOf(listed, page, size);
    forall k | 0 <= k < |rows|
      ensures rows[k] in listed
    {
      assert rows[k] == listed[page * size + k];
    }
  }

  class PostService {
    const posts: Table<Post>
    const users: Table<User>
    const postLikes: Table<Like>

    ghost predicate Valid()
      reads this, posts, users, postLikes
    {
      posts.Valid() && users.Valid() && postLikes.Valid()
    }

    constructor (posts: Table<Post>, users: Table<User>, postLikes: Table<Like>)
      requires posts.Valid() && users.Valid() && postLikes.Valid()
      ensures Valid() && this.posts == posts && this.users == users && this.postLikes == postLikes
    {
      this.posts := posts;
      this.users := users;
      this.postLikes := postLikes;
    }

    /** `createPost`: an unknown author, then content the screening rejects,
        fails with nothing saved; otherwise the post is saved under the next
        identity with the category defaulted, and the response, built
        without a user, reports it as not liked. */
    method CreatePost(username: string, title: string, content: string, category: Option<string>,
                      validateContent: string -> bool) returns (r: Result<PostResponse>)
      requires Valid()
      modifies posts
      ensures Valid()
      ensures FindByUsername(users.rows, username).None? ==>
        r == Err(UserNotFound) && posts.rows == old(posts.rows)
      ensures FindByUsername(users.rows, username).Some? && !validateContent(content) ==>
        r == Err(InappropriateContent) && posts.rows == old(posts.rows)
      ensures FindByUsername(users.rows, username).Some? && validateContent(content) ==>
        posts.rows == old(posts.rows) + [Row(old(posts.nextId),
          Post(FindByUsername(users.rows, username).value.id, title, content, category.GetOr(DefaultCategory)))]
        && r == Ok(ToResponse(posts.rows[|posts.rows| - 1], users.rows, postLikes.rows, None))
      ensures r.Ok? ==> !r.value.isLiked && r.value.category == category.GetOr(DefaultCategory)
    {
      var author := FindByUsername(users.rows, username);
      if author.None? {
        return Err(UserNotFound);
      }
      if !validateContent(content) {
        return Err(InappropriateContent);
      }
      var id := posts.Insert(Post(author.value.id, title, content, category.GetOr(DefaultCategory)));
      ResponseLikes(posts.rows[|posts.rows| - 1], users.rows, postLikes.rows, None);
      r := Ok(ToResponse(posts.rows[|posts.rows| - 1], users.rows, postLikes.rows, None));
    }

    /** `updatePost`: a missing post, then a caller who is not the author,
        then rejected content fails with nothing changed (the author check
        comes first). Otherwise only that post changes: its title and content
        are replaced, its category only when one is given, its author and
        identity stay. The response is that of the updated post as seen by
        the caller (likes, the caller's own like, author nickname). */
    method UpdatePost(postId: Id, username: string, title: string, content: string, category: Option<string>,
                      validateContent: string -> bool) returns (r: Result<PostResponse>)
      requires Valid()
      modifies posts
      ensures Valid()
      ensures IndexOfId(old(posts.rows), postId).None? ==>
        r == Err(PostNotFound) && posts.rows == old(posts.rows)
      ensures IndexOfId(old(posts.rows), postId).Some? ==>
        var k := IndexOfId(old(posts.rows), postId).value;
        var before := old(posts.rows)[k].value;
        (!IsAuthor(users.rows, before.authorId, username) ==>
           r == Err(UpdateForbidden) && posts.rows == old(posts.rows))
        && (IsAuthor(users.rows, before.authorId, username) && !validateContent(content) ==>
           r == Err(InappropriateContent) && posts.rows == old(posts.rows))
        && (IsAuthor(users.rows, before.authorId, username) && validateContent(content) ==>
           posts.rows == old(posts.rows)[k := Row(postId, Post(before.authorId, title, content, category.GetOr(before.category)))]
           && r == Ok(ToResponse(posts.rows[k], users.rows, postLikes.rows, CallerId(users.rows, username))))
      ensures r.Ok? ==>
        IndexOfId(old(posts.rows), postId).Some?
        && IsAuthor(users.rows, old(posts.rows)[IndexOfId(old(posts.rows), postId).value].value.authorId, username)
    {
      var found := IndexOfId(posts.rows, postId);
      if found.None? {
        return Err(PostNotFound);
      }
      var k := found.value;
      var before := posts.rows[k].value;
      if !IsAuthor(users.rows, before.authorId, username) {
        return Err(UpdateForbidden);
      }
      if !validateContent(content) {
        return Err(InappropriateContent);
      }
      posts.Update(k, Post(before.authorId, title, content, category.GetOr(before.category)));
      r := Ok(ToResponse(posts.rows[k], users.rows, postLikes.rows, CallerId(users.rows, username)));
    }

    /** `deletePost`: a missing post or a caller who is not the author fails
        with the post kept; otherwise that post, and only it, is removed. */
    method DeletePost(postId: Id, username: string) returns (r: Result<()>)
      requires Valid()
      modifies posts
      ensures Valid()
      ensures IndexOfId(old(posts.rows), postId).None? ==>
        r == Err(PostNotFound) && posts.rows == old(posts.rows)
      ensures IndexOfId(old(posts.rows), postId).Some? ==>
        var k := IndexOfId(old(posts.rows), postId).value;
        (!IsAuthor(users.rows, old(posts.rows)[k].value.authorId, username) ==>
           r == Err(DeleteForbidden) && posts.rows == old(posts.rows))
        && (IsAuthor(users.rows, old(posts.rows)[k].value.authorId, username) ==>
           r == Ok(()) && posts.rows == old(posts.rows)[..k] + old(posts.rows)[k + 1..])
      ensures r.Ok? ==> FindById(posts.rows, postId).None?
    {
      var found := IndexOfId(posts.rows, postId);
      if found.None? {
        return Err(PostNotFound);
      }
      var k := found.value;
      if !IsAuthor(users.rows, posts.rows[k].value.authorId, username) {
        return Err(DeleteForbidden);
      }
      posts.Delete(k);
      forall i | 0 <= i < |posts.rows|
        ensures posts.rows[i].id != postId
      {
        if i < k {
          assert posts.rows[i] == old(posts.rows)[i];
        } else {
          assert posts.rows[i] == old(posts.rows)[i + 1];
        }
      }
      r := Ok(());
    }
  }
}
