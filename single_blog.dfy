/** The SingleBlog page: loading a blog and its comments from the route's id,
    posting a top-level comment, and splitting the content into paragraphs. */
module SingleBlogPage {
  import opened Common
  import opened Records
  import opened Store
  import opened Sorting

  const LOGIN_REQUIRED := "Please log in to comment"
  const EMPTY_COMMENT := "Comment cannot be empty"
  const POST_FAILED := "Failed to post comment"

  /** `GET /blogs/<routeId>`: the store compares the route text with each
      id written in decimal. */
  function BlogAtRoute(blogs: seq<Row<Blog>>, routeId: string): (r: Option<Row<Blog>>)
    ensures r.Some? ==> r.value in blogs && Decimal(r.value.id) == routeId
    ensures r.None? ==> forall i :: 0 <= i < |blogs| ==> Decimal(blogs[i].id) != routeId
  {
    var n := ParseInt(routeId);
    if n.Some? && Decimal(n.value) == routeId && Has(blogs, n.value) then Find(blogs, n.value)
    else NotAtRoute(blogs, routeId); None
  }

  /** When the route text does not parse back to a stored id, no id written
      in decimal equals it. */
  lemma NotAtRoute(blogs: seq<Row<Blog>>, routeId: string)
    requires var n := ParseInt(routeId); !(n.Some? && Decimal(n.value) == routeId && Has(blogs, n.value))
    ensures forall i :: 0 <= i < |blogs| ==> Decimal(blogs[i].id) != routeId
  {
    forall i | 0 <= i < |blogs| ensures Decimal(blogs[i].id) != routeId {
      ParseDecimal(blogs[i].id);
    }
  }

  function OfBlog(blogId: int): Row<Comment> -> bool
  {
    (c: Row<Comment>) => c.val.blogId == blogId
  }

  function CommentTime(c: Row<Comment>): int
  {
    c.val.createdAt
  }

  /** The record handleCommentSubmit posts. It has no `parentId` and no
      `likes`; the text is posted as typed, untrimmed. */
  function PageComment(blogId: int, user: Row<User>, content: string, now: int): (c: Comment)
    ensures c.blogId == blogId && c.parentId.None? && c.likes.None? && c.createdAt == now
    ensures c.userId == user.id && c.userName == user.val.name && c.content == content
    ensures c.userProfilePic.Some? && c.userProfilePic.value != ""
    ensures user.val.profilePic != "" ==> c.userProfilePic == Some(user.val.profilePic)
  {
    var pic := if user.val.profilePic != "" then user.val.profilePic else DEFAULT_PROFILE_PIC;
    Comment(blogId, None, user.id, user.val.name, Some(pic), content, None, now)
  }

  /** `content.split("\n")`, one paragraph per piece. */
  function Paragraphs(content: string): seq<string>
  {
    Split(content, '\n')
  }

  /** There is one paragraph more than there are line breaks, none of them
      holds a line break, and joined back with line breaks they give the
      content again. */
  lemma ParagraphsOfContent(content: string)
    ensures |Paragraphs(content)| == Occurrences(content, '\n') + 1
    ensures forall k :: 0 <= k < |Paragraphs(content)| ==> '\n' !in Paragraphs(content)[k]
    ensures Join(Paragraphs(content), '\n') == content
  {
    SplitLength(content, '\n');
    SplitPiecesFree(content, '\n');
    SplitJoin(content, '\n');
  }

  /** A route that writes an id in decimal parses back to that id. */
  lemma RouteNamesBlog(routeId: string, id: int)
    requires Decimal(id) == routeId
    ensures ParseInt(routeId) == Some(id)
  {
    ParseDecimal(id);
  }

  /** `POST /comments`: the store gives the comment the next id and appends
      it. */
  method PostComment(db: Db, c: Comment) returns (posted: Row<Comment>)
    requires db.Valid()
    modifies db`comments, db`nextId
    ensures db.Valid()
    ensures posted == Row(old(db.nextId), c)
    ensures db.comments == old(db.comments) + [posted] && db.nextId == old(db.nextId) + 1
  {
    AppendOk(db.comments, c, db.nextId);
    posted := Row(db.nextId, c);
    db.comments := db.comments + [posted];
    db.nextId := db.nextId + 1;
  }

  class BlogPage {
    /** The `:id` route parameter, as text. */
    const routeId: string
    var blog: Option<Row<Blog>>
    var comments: seq<Row<Comment>>
    var newComment: string

    /** A loaded blog is the one the route names. */
    ghost predicate Valid()
      reads this
    {
      blog.Some? ==> Decimal(blog.value.id) == routeId
    }

    constructor (id: string)
      ensures routeId == id && blog.None? && comments == [] && newComment == ""
      ensures Valid()
    {
      routeId, blog, comments, newComment := id, None, [], "";
    }

    /** The blog, then its comments newest first. A missing blog is a 404:
        nothing is set and the comments are not asked for. */
    method Fetch(db: Db, reachable: bool)
      requires Valid()
      modifies this`blog, this`comments
      ensures Valid()
      ensures reachable && BlogAtRoute(db.blogs, routeId).Some? ==>
                blog == BlogAtRoute(db.blogs, routeId) &&
                multiset(comments) == multiset(Filter(db.comments, OfBlog(blog.value.id))) &&
                SortedBy(comments, CommentTime, true)
      ensures !(reachable && BlogAtRoute(db.blogs, routeId).Some?) ==>
                blog == old(blog) && comments == old(comments)
    {
      if !reachable {
        return;
      }
      var found := BlogAtRoute(db.blogs, routeId);
      if found.None? {
        return;
      }
      blog := found;
      comments := SortBy(Filter(db.comments, OfBlog(found.value.id)), CommentTime, true);
    }

    method Type(text: string)
      modifies this`newComment
      ensures newComment == text
    {
      newComment := text;
    }

    /** handleCommentSubmit. The form is only shown once the blog is loaded.
        Without a user, or with a blank comment, nothing is posted; otherwise
        the comment is added to the store, put in front of the list, and the
        input is cleared. */
    method Submit(db: Db, currentUser: Option<Row<User>>, now: int, reachable: bool) returns (r: Outcome)
      requires Valid() && blog.Some? && db.Valid()
      modifies db`comments, db`nextId, this`comments, this`newComment
      ensures db.Valid()
      ensures currentUser.None? ==> r == Failed(LOGIN_REQUIRED)
      ensures currentUser.Some? && IsBlank(old(newComment)) ==> r == Failed(EMPTY_COMMENT)
      ensures currentUser.Some? && !IsBlank(old(newComment)) && !reachable ==> r == Failed(POST_FAILED)
      ensures r == Done <==> currentUser.Some? && !IsBlank(old(newComment)) && reachable
      ensures r == Done ==>
                var posted := Row(old(db.nextId), PageComment(blog.value.id, currentUser.value, old(newComment), now));
                db.comments == old(db.comments) + [posted] && db.nextId == old(db.nextId) + 1 &&
                comments == [posted] + old(comments) && newComment == ""
      ensures r == Done ==> ParseInt(routeId) == Some(blog.value.id)
      ensures r != Done ==> unchanged(db) && comments == old(comments) && newComment == old(newComment)
    {
      if currentUser.None? {
        return Failed(LOGIN_REQUIRED);
      }
      TrimEmptyIffBlank(newComment);
      if Trim(newComment) == [] {
        return Failed(EMPTY_COMMENT);
      }
      if !reachable {
        return Failed(POST_FAILED);
      }
      Post(db, currentUser.value, now);
      r := Done;
    }

    /** The successful end of handleCommentSubmit: the comment, on the blog
        whose id the route parses to, goes to the store and to the front of
        the list, and the input is cleared. */
    method Post(db: Db, user: Row<User>, now: int)
      requires Valid() && blog.Some? && db.Valid()
      modifies db`comments, db`nextId, this`comments, this`newComment
      ensures db.Valid()
      ensures var posted := Row(old(db.nextId), PageComment(blog.value.id, user, old(newComment), now));
              db.comments == old(db.comments) + [posted] && db.nextId == old(db.nextId) + 1 &&
              comments == [posted] + old(comments) && newComment == ""
      ensures ParseInt(routeId) == Some(blog.value.id)
    {
      RouteNamesBlog(routeId, blog.value.id);
      var blogId := ParseInt(routeId).value;
      var posted := PostComment(db, PageComment(blogId, user, newComment, now));
      comments := [posted] + comments;
      newComment := "";
    }
  }
}
