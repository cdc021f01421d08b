/** blogUtil: publishing a blog, the blog like toggle, the author query and
    the liked check. */
module BlogUtil {
  import opened Common
  import opened Records
  import opened Store
  import opened Engagement

  /** What a caller hands to createBlog; `status` and `likes` may be supplied
      but are always overridden. */
  datatype BlogDraft = BlogDraft(
    title: string,
    content: string,
    category: string,
    imageUrl: string,
    authorId: int,
    authorName: string,
    status: Option<string>,
    likes: Option<int>)

  datatype CreateResult = Created(blog: Row<Blog>) | CreateFailed(message: string)

  datatype ToggleResult = Toggled(liked: bool, likeCount: int) | ToggleFailed(message: string)

  const CREATE_FAILED := "Failed to create blog"
  const LIKE_FAILED := "Failed to update like status"

  /** The record createBlog posts: the caller's fields, the creation time, and
      the forced `status: "approved"` and `likes: 0`. */
  function Publish(d: BlogDraft, now: int): (b: Blog)
    ensures b.status == APPROVED && b.likes == Some(0) && b.createdAt == now
    ensures b.title == d.title && b.content == d.content && b.category == d.category
    ensures b.imageUrl == d.imageUrl && b.authorId == d.authorId && b.authorName == d.authorName
  {
    Blog(d.title, d.content, d.category, d.imageUrl, d.authorId, d.authorName, APPROVED, Some(0), now)
  }

  method CreateBlog(db: Db, d: BlogDraft, now: int, reachable: bool) returns (r: CreateResult)
    requires db.Valid()
    modifies db`blogs, db`nextId
    ensures db.Valid()
    ensures reachable ==> r == Created(Row(old(db.nextId), Publish(d, now))) &&
                          db.blogs == old(db.blogs) + [r.blog] && db.nextId == old(db.nextId) + 1
    ensures !reachable ==> r == CreateFailed(CREATE_FAILED) && unchanged(db)
  {
    if !reachable {
      return CreateFailed(CREATE_FAILED);
    }
    var b := Publish(d, now);
    AppendOk(db.blogs, b, db.nextId);
    r := Created(Row(db.nextId, b));
    db.blogs := db.blogs + [r.blog];
    db.nextId := db.nextId + 1;
  }

  /** toggleLikeBlog. With `isLiked` it deletes the first like row of the pair
      (if any), then rewrites the counter as max(0, old - 1); without it, it
      posts a like row and rewrites the counter as old + 1. The counter is read
      after the row step, so a blog that is missing at that point makes the
      call fail with the row step already done. */
  method ToggleLikeBlog(db: Db, blogId: int, userId: int, isLiked: bool, now: int, reachable: bool)
    returns (r: ToggleResult)
    requires db.Valid()
    modifies db`likes, db`blogs, db`nextId
    ensures db.Valid()
    ensures !reachable ==> r == ToggleFailed(LIKE_FAILED) && unchanged(db)
    ensures reachable ==>
              db.likes == (if isLiked then DropFirst(old(db.likes), userId, blogId)
                           else AddRow(old(db.likes), userId, blogId, old(db.nextId), now))
    ensures reachable && Has(old(db.blogs), blogId) ==>
              var b := Find(old(db.blogs), blogId).value.val;
              var n := if isLiked then Unliked(b.likes) else Liked(b.likes);
              r == Toggled(!isLiked, n) && db.blogs == Replace(old(db.blogs), blogId, b.(likes := Some(n)))
    ensures reachable && !Has(old(db.blogs), blogId) ==>
              r == ToggleFailed(LIKE_FAILED) && db.blogs == old(db.blogs)
  {
    if !reachable {
      return ToggleFailed(LIKE_FAILED);
    }
    if isLiked {
      var m := Matching(db.likes, userId, blogId);
      if m != [] {
        RemoveOk(db.likes, m[0].id, db.nextId);
        db.likes := Remove(db.likes, m[0].id);
      }
    } else {
      AppendOk(db.likes, Like(userId, blogId, now), db.nextId);
      db.likes := AddRow(db.likes, userId, blogId, db.nextId, now);
      db.nextId := db.nextId + 1;
    }
    var found := Find(db.blogs, blogId);
    if found.None? {
      return ToggleFailed(LIKE_FAILED);
    }
    var b := found.value.val;
    var n := if isLiked then Unliked(b.likes) else Liked(b.likes);
    ReplaceOk(db.blogs, blogId, b.(likes := Some(n)), db.nextId);
    db.blogs := Replace(db.blogs, blogId, b.(likes := Some(n)));
    r := Toggled(!isLiked, n);
  }

  /** getBlogsByAuthor: the author's blogs in store order; `None` when the
      request fails (the source rethrows). */
  function BlogsByAuthor(blogs: seq<Row<Blog>>, authorId: int, reachable: bool): (r: Option<seq<Row<Blog>>>)
    ensures r.Some? <==> reachable
    ensures r.Some? ==> IsSubsequence(r.value, blogs) &&
                        forall x :: x in r.value <==> x in blogs && x.val.authorId == authorId
  {
    if reachable then Some(Filter(blogs, ByAuthor(authorId))) else None
  }

  function ByAuthor(authorId: int): Row<Blog> -> bool
  {
    (b: Row<Blog>) => b.val.authorId == authorId
  }
}
