/** commentUtil: the thread queries, the grouping of a blog's replies by
    parent, the comment writes, the comment like toggle and the map of the
    comments a user has liked. */
module CommentUtil {
  import opened Common
  import opened Records
  import opened Store
  import opened Sorting
  import opened Engagement

  /** What a caller hands to addComment; `likes` is always overridden. */
  datatype CommentDraft = CommentDraft(
    blogId: int,
    parentId: Option<int>,
    userId: int,
    userName: string,
    userProfilePic: Option<string>,
    content: string,
    likes: Option<int>)

  datatype CommentResult = Posted(comment: Row<Comment>) | CommentFailed(message: string)

  datatype CommentToggle = CommentToggled(liked: bool, comment: Row<Comment>) | CommentToggleFailed(message: string)

  const POST_FAILED := "Failed to post comment"
  const UPDATE_FAILED := "Failed to update comment"
  const DELETE_FAILED := "Failed to delete comment"
  const LIKE_FAILED := "Failed to update comment like"

  function CommentTime(c: Row<Comment>): int
  {
    c.val.createdAt
  }

  /** `blogId=<b>&parentId=<p>`, where `parentId=null` selects top-level comments. */
  function InThread(blogId: int, parentId: Option<int>): Row<Comment> -> bool
  {
    (c: Row<Comment>) => c.val.blogId == blogId && c.val.parentId == parentId
  }

  /** `blogId=<b>&parentId_ne=null`: every reply on the blog. */
  function IsReplyOn(blogId: int): Row<Comment> -> bool
  {
    (c: Row<Comment>) => c.val.blogId == blogId && c.val.parentId.Some?
  }

  function HasParent(parentId: Option<int>): Row<Comment> -> bool
  {
    (c: Row<Comment>) => c.val.parentId == parentId
  }

  /** getBlogComments: the blog's top-level comments newest first, or one
      parent's replies oldest first; `None` when the request fails. */
  function BlogComments(comments: seq<Row<Comment>>, blogId: int, parentId: Option<int>, reachable: bool)
    : (r: Option<seq<Row<Comment>>>)
    ensures r.Some? <==> reachable
    ensures r.Some? ==> forall x :: x in r.value <==> x in comments && x.val.blogId == blogId && x.val.parentId == parentId
    ensures r.Some? ==> multiset(r.value) == multiset(Filter(comments, InThread(blogId, parentId)))
    ensures r.Some? ==> SortedBy(r.value, CommentTime, parentId.None?)
  {
    if !reachable then None
    else
      var q := Filter(comments, InThread(blogId, parentId));
      var sorted := SortBy(q, CommentTime, parentId.None?);
      assert forall x :: x in sorted <==> x in multiset(sorted);
      assert forall x :: x in q <==> x in multiset(q);
      Some(sorted)
  }

  /** The map holds one group per parent that occurs in `prefix`, and each
      group is exactly that parent's replies, in order. */
  ghost predicate Grouped(m: map<Option<int>, seq<Row<Comment>>>, prefix: seq<Row<Comment>>)
  {
    (forall k :: k in m <==> exists i :: 0 <= i < |prefix| && prefix[i].val.parentId == k) &&
    (forall k :: k in m ==> m[k] == Filter(prefix, HasParent(k)) && m[k] != [])
  }

  /** The `forEach` of getBlogReplies: every reply is pushed onto the list of
      its own parent, created on first use. */
  method GroupByParent(replies: seq<Row<Comment>>) returns (m: map<Option<int>, seq<Row<Comment>>>)
    ensures forall k :: k in m <==> exists i :: 0 <= i < |replies| && replies[i].val.parentId == k
    ensures forall k :: k in m ==> m[k] == Filter(replies, HasParent(k)) && m[k] != []
  {
    m := map[];
    for n := 0 to |replies|
      invariant Grouped(m, replies[..n])
    {
      var c := replies[n];
      var key := c.val.parentId;
      ghost var m0 := m;
      if key !in m {
        m := m[key := [c]];
      } else {
        m := m[key := m[key] + [c]];
      }
      GroupPush(m0, replies[..n], c, m);
      assert replies[..n + 1] == replies[..n] + [c];
    }
    assert replies[..|replies|] == replies;
  }

  /** One step of the `forEach`: pushing `c` onto its parent's group keeps
      the map grouped over the longer prefix. */
  lemma GroupPush(m: map<Option<int>, seq<Row<Comment>>>, prefix: seq<Row<Comment>>, c: Row<Comment>,
                  m': map<Option<int>, seq<Row<Comment>>>)
    requires Grouped(m, prefix)
    requires m' == if c.val.parentId in m then m[c.val.parentId := m[c.val.parentId] + [c]]
                   else m[c.val.parentId := [c]]
    ensures Grouped(m', prefix + [c])
  {
    var key := c.val.parentId;
    var q := prefix + [c];
    forall k ensures k in m' <==> exists i :: 0 <= i < |q| && q[i].val.parentId == k {
      if k in m && k != key {
        var i :| 0 <= i < |prefix| && prefix[i].val.parentId == k;
        assert q[i] == prefix[i];
      }
      if k == key {
        assert q[|prefix|] == c;
      }
      if exists i :: 0 <= i < |q| && q[i].val.parentId == k {
        var i :| 0 <= i < |q| && q[i].val.parentId == k;
        if i < |prefix| {
          assert q[i] == prefix[i];
        }
      }
    }
    forall k | k in m' ensures m'[k] == Filter(q, HasParent(k)) && m'[k] != [] {
      GroupStep(prefix, c, k);
      if k == key && key !in m {
        FilterEmpty(prefix, HasParent(k));
      }
    }
  }

  /** The store's answer to getBlogReplies' query: the blog's replies, oldest first. */
  function Replies(comments: seq<Row<Comment>>, blogId: int): seq<Row<Comment>>
  {
    SortBy(Filter(comments, IsReplyOn(blogId)), CommentTime, false)
  }

  /** Pushing one more reply extends only its own parent's group. */
  lemma GroupStep(prefix: seq<Row<Comment>>, c: Row<Comment>, k: Option<int>)
    ensures Filter(prefix + [c], HasParent(k)) ==
            Filter(prefix, HasParent(k)) + (if k == c.val.parentId then [c] else [])
  {
    FilterAppend(prefix, [c], HasParent(k));
  }

  /** getBlogReplies: the blog's replies, oldest first, grouped by parent.
      Every group is non-empty, holds exactly the replies with that parent in
      oldest-first order, and no group is keyed by a missing parent. */
  method GetBlogReplies(db: Db, blogId: int, reachable: bool) returns (r: Option<map<Option<int>, seq<Row<Comment>>>>)
    ensures r.Some? <==> reachable
    ensures r.Some? ==>
              (forall k :: k in r.value <==> exists i :: 0 <= i < |Replies(db.comments, blogId)| &&
                                                      Replies(db.comments, blogId)[i].val.parentId == k) &&
              forall k :: k in r.value ==> r.value[k] == Filter(Replies(db.comments, blogId), HasParent(k)) && r.value[k] != []
    ensures r.Some? ==>
              forall k :: k in r.value ==>
                k.Some? && SortedBy(r.value[k], CommentTime, false) &&
                forall x :: x in r.value[k] <==> x in db.comments && x.val.blogId == blogId && x.val.parentId == k
  {
    if !reachable {
      return None;
    }
    var replies := Replies(db.comments, blogId);
    var m := GroupByParent(replies);
    forall k | k in m
      ensures k.Some? && SortedBy(m[k], CommentTime, false)
      ensures forall x :: x in m[k] <==> x in db.comments && x.val.blogId == blogId && x.val.parentId == k
    {
      ReplyGroup(db.comments, blogId, replies, k);
    }
    r := Some(m);
  }

  /** A group of the blog's replies: its key is a real parent, it is in
      oldest-first order, and it holds exactly the blog's replies to that parent. */
  lemma ReplyGroup(comments: seq<Row<Comment>>, blogId: int, replies: seq<Row<Comment>>, k: Option<int>)
    requires replies == Replies(comments, blogId)
    requires exists i :: 0 <= i < |replies| && replies[i].val.parentId == k
    ensures k.Some?
    ensures SortedBy(Filter(replies, HasParent(k)), CommentTime, false)
    ensures forall x :: x in Filter(replies, HasParent(k)) <==> x in comments && x.val.blogId == blogId && x.val.parentId == k
  {
    var q := Filter(comments, IsReplyOn(blogId));
    FilterSorted(replies, HasParent(k), CommentTime, false);
    SortByMembers(q, CommentTime, false);
    var i :| 0 <= i < |replies| && replies[i].val.parentId == k;
    assert replies[i] in q;
  }

  /** The record addComment posts: the caller's fields, the time, and `likes: 0`. */
  function PostedComment(d: CommentDraft, now: int): (c: Comment)
    ensures c.likes == Some(0) && c.createdAt == now
    ensures c.blogId == d.blogId && c.parentId == d.parentId && c.userId == d.userId
    ensures c.userName == d.userName && c.userProfilePic == d.userProfilePic && c.content == d.content
  {
    Comment(d.blogId, d.parentId, d.userId, d.userName, d.userProfilePic, d.content, Some(0), now)
  }

  method AddComment(db: Db, d: CommentDraft, now: int, reachable: bool) returns (r: CommentResult)
    requires db.Valid()
    modifies db`comments, db`nextId
    ensures db.Valid()
    ensures reachable ==> r == Posted(Row(old(db.nextId), PostedComment(d, now))) &&
                          db.comments == old(db.comments) + [r.comment] && db.nextId == old(db.nextId) + 1
    ensures !reachable ==> r == CommentFailed(POST_FAILED) && unchanged(db)
  {
    if !reachable {
      return CommentFailed(POST_FAILED);
    }
    var c := PostedComment(d, now);
    AppendOk(db.comments, c, db.nextId);
    r := Posted(Row(db.nextId, c));
    db.comments := db.comments + [r.comment];
    db.nextId := db.nextId + 1;
  }

  /** updateComment: a PATCH of `content` alone; a missing comment is a 404. */
  method UpdateComment(db: Db, commentId: int, content: string, reachable: bool) returns (r: CommentResult)
    requires db.Valid()
    modifies db`comments
    ensures db.Valid()
    ensures reachable && Has(old(db.comments), commentId) ==>
              var c := Find(old(db.comments), commentId).value.val.(content := content);
              r == Posted(Row(commentId, c)) && db.comments == Replace(old(db.comments), commentId, c)
    ensures !(reachable && Has(old(db.comments), commentId)) ==>
              r == CommentFailed(UPDATE_FAILED) && unchanged(db)
  {
    var found := Find(db.comments, commentId);
    if !reachable || found.None? {
      return CommentFailed(UPDATE_FAILED);
    }
    var c := found.value.val.(content := content);
    ReplaceOk(db.comments, commentId, c, db.nextId);
    db.comments := Replace(db.comments, commentId, c);
    r := Posted(Row(commentId, c));
  }

  /** deleteComment: removes that one row. Replies are not deleted with it. */
  method DeleteComment(db: Db, commentId: int, reachable: bool) returns (r: Outcome)
    requires db.Valid()
    modifies db`comments
    ensures db.Valid()
    ensures reachable && Has(old(db.comments), commentId) ==>
              r == Done && db.comments == Remove(old(db.comments), commentId)
    ensures r == Done ==> forall x :: x in old(db.comments) && x.val.parentId == Some(commentId) && x.id != commentId ==>
                            x in db.comments
    ensures !(reachable && Has(old(db.comments), commentId)) ==>
              r == Failed(DELETE_FAILED) && unchanged(db)
  {
    if !reachable || !Has(db.comments, commentId) {
      return Failed(DELETE_FAILED);
    }
    RemoveOk(db.comments, commentId, db.nextId);
    db.comments := Remove(db.comments, commentId);
    r := Done;
  }

  /** toggleLikeComment: the same row step and counter step as the blog
      toggle, on `commentLikes` and the comment's `likes`; it answers with the
      patched comment. */
  method ToggleLikeComment(db: Db, commentId: int, userId: int, isLiked: bool, now: int, reachable: bool)
    returns (r: CommentToggle)
    requires db.Valid()
    modifies db`commentLikes, db`comments, db`nextId
    ensures db.Valid()
    ensures !reachable ==> r == CommentToggleFailed(LIKE_FAILED) && unchanged(db)
    ensures reachable ==>
              db.commentLikes == (if isLiked then DropFirst(old(db.commentLikes), userId, commentId)
                                  else AddRow(old(db.commentLikes), userId, commentId, old(db.nextId), now))
    ensures reachable && Has(old(db.comments), commentId) ==>
              var c := Find(old(db.comments), commentId).value.val;
              var n := if isLiked then Unliked(c.likes) else Liked(c.likes);
              r == CommentToggled(!isLiked, Row(commentId, c.(likes := Some(n)))) &&
              db.comments == Replace(old(db.comments), commentId, c.(likes := Some(n)))
    ensures reachable && !Has(old(db.comments), commentId) ==>
              r == CommentToggleFailed(LIKE_FAILED) && db.comments == old(db.comments)
  {
    if !reachable {
      return CommentToggleFailed(LIKE_FAILED);
    }
    if isLiked {
      var m := Matching(db.commentLikes, userId, commentId);
      if m != [] {
        RemoveOk(db.commentLikes, m[0].id, db.nextId);
        db.commentLikes := Remove(db.commentLikes, m[0].id);
      }
    } else {
      AppendOk(db.commentLikes, Like(userId, commentId, now), db.nextId);
      db.commentLikes := AddRow(db.commentLikes, userId, commentId, db.nextId, now);
      db.nextId := db.nextId + 1;
    }
    var found := Find(db.comments, commentId);
    if found.None? {
      return CommentToggleFailed(LIKE_FAILED);
    }
    var c := found.value.val;
    var n := if isLiked then Unliked(c.likes) else Liked(c.likes);
    ReplaceOk(db.comments, commentId, c.(likes := Some(n)), db.nextId);
    db.comments := Replace(db.comments, commentId, c.(likes := Some(n)));
    r := CommentToggled(!isLiked, Row(commentId, c.(likes := Some(n))));
  }

  /** The `forEach` of getUserCommentLikes: `likesMap[like.commentId] = true`. */
  method LikedComments(rows: seq<Row<Like>>) returns (m: map<int, bool>)
    ensures forall c :: c in m <==> exists i :: 0 <= i < |rows| && rows[i].val.targetId == c
    ensures forall c :: c in m ==> m[c]
  {
    m := map[];
    for n := 0 to |rows|
      invariant forall c :: c in m <==> exists i :: 0 <= i < n && rows[i].val.targetId == c
      invariant forall c :: c in m ==> m[c]
    {
      m := m[rows[n].val.targetId := true];
    }
  }

  function ByUser(userId: int): Row<Like> -> bool
  {
    (l: Row<Like>) => l.val.userId == userId
  }

  /** getUserCommentLikes: the ids of the comments the user has a like row
      for, each mapped to true; the empty map when the request fails. */
  method GetUserCommentLikes(db: Db, userId: int, reachable: bool) returns (m: map<int, bool>)
    ensures !reachable ==> m == map[]
    ensures reachable ==>
              forall c :: c in m <==> exists i :: 0 <= i < |db.commentLikes| &&
                                                  db.commentLikes[i].val.userId == userId &&
                                                  db.commentLikes[i].val.targetId == c
    ensures forall c :: c in m ==> m[c]
  {
    if !reachable {
      return map[];
    }
    var mine := Filter(db.commentLikes, ByUser(userId));
    m := LikedComments(mine);
    forall c ensures c in m <==> exists i :: 0 <= i < |db.commentLikes| &&
                                            db.commentLikes[i].val.userId == userId &&
                                            db.commentLikes[i].val.targetId == c {
      if c in m {
        var i :| 0 <= i < |mine| && mine[i].val.targetId == c;
        assert mine[i] in db.commentLikes;
      }
      if exists i :: 0 <= i < |db.commentLikes| && db.commentLikes[i].val.userId == userId &&
                     db.commentLikes[i].val.targetId == c {
        var i :| 0 <= i < |db.commentLikes| && db.commentLikes[i].val.userId == userId &&
                 db.commentLikes[i].val.targetId == c;
        assert db.commentLikes[i] in mine;
      }
    }
  }
}
