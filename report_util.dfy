/** reportUtil: the status query, the two report creators with their
    duplicate guards, and the status update. */
module ReportUtil {
  import opened Common
  import opened Records
  import opened Store
  import opened Sorting

  const DEFAULT_REASON := "Inappropriate content"
  const ALREADY_BLOG := "You have already reported this blog"
  const ALREADY_COMMENT := "You have already reported this comment"
  const REPORT_BLOG_FAILED := "Failed to report blog"
  const REPORT_COMMENT_FAILED := "Failed to report comment"
  const STATUS_FAILED := "Failed to update report status"

  function ReportTime(r: Row<Report>): int
  {
    r.val.createdAt
  }

  function HasStatus(status: string): Row<Report> -> bool
  {
    (r: Row<Report>) => r.val.status == status
  }

  /** getReportsByStatus: the reports with that status, newest first; `None`
      when the request fails. */
  function ReportsByStatus(reports: seq<Row<Report>>, status: string, reachable: bool): (r: Option<seq<Row<Report>>>)
    ensures r.Some? <==> reachable
    ensures r.Some? ==> forall x :: x in r.value <==> x in reports && x.val.status == status
    ensures r.Some? ==> multiset(r.value) == multiset(Filter(reports, HasStatus(status)))
    ensures r.Some? ==> SortedBy(r.value, ReportTime, true)
  {
    if !reachable then None
    else
      var q := Filter(reports, HasStatus(status));
      SortByMembers(q, ReportTime, true);
      Some(SortBy(q, ReportTime, true))
  }

  /** `userId=<u>&blogId=<b>&type=blog`. */
  function IsBlogReportBy(userId: int, blogId: int): Row<Report> -> bool
  {
    (r: Row<Report>) => r.val.userId == userId && r.val.blogId == Some(blogId) && r.val.kind == "blog"
  }

  /** `userId=<u>&commentId=<c>`: the type is not part of the query. */
  function IsCommentReportBy(userId: int, commentId: int): Row<Report> -> bool
  {
    (r: Row<Report>) => r.val.userId == userId && r.val.commentId == Some(commentId)
  }

  /** `reason = "Inappropriate content"`: the default applies only when no
      reason is passed. */
  function ReasonOrDefault(reason: Option<string>): string
  {
    match reason
    case None => DEFAULT_REASON
    case Some(s) => s
  }

  function NewBlogReport(userId: int, blogId: int, reason: Option<string>, now: int): (r: Report)
    ensures r.kind == "blog" && r.status == PENDING && r.userId == userId && r.blogId == Some(blogId)
    ensures r.reason == ReasonOrDefault(reason) && r.commentId.None? && r.resolvedAt.None?
  {
    Report(userId, "blog", Some(blogId), None, ReasonOrDefault(reason), PENDING, now, None, None)
  }

  function NewCommentReport(userId: int, commentId: int, blogId: int, reason: Option<string>, now: int): (r: Report)
    ensures r.kind == "comment" && r.status == PENDING && r.userId == userId
    ensures r.commentId == Some(commentId) && r.blogId == Some(blogId)
    ensures r.reason == ReasonOrDefault(reason) && r.resolvedAt.None?
  {
    Report(userId, "comment", Some(blogId), Some(commentId), ReasonOrDefault(reason), PENDING, now, None, None)
  }

  /** The reports after a successful reportBlog request: unchanged when the
      user has already reported the blog, one more report otherwise. */
  function AfterReportBlog(reports: seq<Row<Report>>, userId: int, blogId: int, reason: Option<string>, id: int, now: int)
    : seq<Row<Report>>
  {
    if Filter(reports, IsBlogReportBy(userId, blogId)) != [] then reports
    else reports + [Row(id, NewBlogReport(userId, blogId, reason, now))]
  }

  method ReportBlog(db: Db, userId: int, blogId: int, reason: Option<string>, now: int, reachable: bool)
    returns (r: Outcome)
    requires db.Valid()
    modifies db`reports, db`nextId
    ensures db.Valid()
    ensures !reachable ==> r == Failed(REPORT_BLOG_FAILED) && unchanged(db)
    ensures reachable ==> db.reports == AfterReportBlog(old(db.reports), userId, blogId, reason, old(db.nextId), now)
    ensures reachable ==>
              r == (if Filter(old(db.reports), IsBlogReportBy(userId, blogId)) != [] then Failed(ALREADY_BLOG) else Done)
    ensures r == Done <==> db.reports != old(db.reports)
  {
    if !reachable {
      return Failed(REPORT_BLOG_FAILED);
    }
    if Filter(db.reports, IsBlogReportBy(userId, blogId)) != [] {
      return Failed(ALREADY_BLOG);
    }
    var rep := NewBlogReport(userId, blogId, reason, now);
    AppendOk(db.reports, rep, db.nextId);
    db.reports := db.reports + [Row(db.nextId, rep)];
    db.nextId := db.nextId + 1;
    r := Done;
  }

  /** Reporting the same blog twice adds one report when the user had not
      reported it before, and none when they had: the user ends up with
      exactly max(1, before) reports of that blog. */
  lemma ReportBlogTwice(reports: seq<Row<Report>>, userId: int, blogId: int,
                        reason1: Option<string>, id1: int, now1: int,
                        reason2: Option<string>, id2: int, now2: int)
    ensures var once := AfterReportBlog(reports, userId, blogId, reason1, id1, now1);
            var twice := AfterReportBlog(once, userId, blogId, reason2, id2, now2);
            && twice == once
            && |twice| == |reports| + (if Filter(reports, IsBlogReportBy(userId, blogId)) == [] then 1 else 0)
            && Count(twice, IsBlogReportBy(userId, blogId)) == Max(1, Count(reports, IsBlogReportBy(userId, blogId)))
  {
    var p := IsBlogReportBy(userId, blogId);
    var added := Row(id1, NewBlogReport(userId, blogId, reason1, now1));
    if Filter(reports, p) == [] {
      FilterAppend(reports, [added], p);
      assert Filter([added], p) == [added];
    }
  }

  function AfterReportComment(reports: seq<Row<Report>>, userId: int, commentId: int, blogId: int,
                              reason: Option<string>, id: int, now: int): seq<Row<Report>>
  {
    if Filter(reports, IsCommentReportBy(userId, commentId)) != [] then reports
    else reports + [Row(id, NewCommentReport(userId, commentId, blogId, reason, now))]
  }

  method ReportComment(db: Db, userId: int, commentId: int, blogId: int, reason: Option<string>, now: int, reachable: bool)
    returns (r: Outcome)
    requires db.Valid()
    modifies db`reports, db`nextId
    ensures db.Valid()
    ensures !reachable ==> r == Failed(REPORT_COMMENT_FAILED) && unchanged(db)
    ensures reachable ==>
              db.reports == AfterReportComment(old(db.reports), userId, commentId, blogId, reason, old(db.nextId), now)
    ensures reachable ==>
              r == (if Filter(old(db.reports), IsCommentReportBy(userId, commentId)) != [] then Failed(ALREADY_COMMENT) else Done)
    ensures r == Done <==> db.reports != old(db.reports)
  {
    if !reachable {
      return Failed(REPORT_COMMENT_FAILED);
    }
    if Filter(db.reports, IsCommentReportBy(userId, commentId)) != [] {
      return Failed(ALREADY_COMMENT);
    }
    var rep := NewCommentReport(userId, commentId, blogId, reason, now);
    AppendOk(db.reports, rep, db.nextId);
    db.reports := db.reports + [Row(db.nextId, rep)];
    db.nextId := db.nextId + 1;
    r := Done;
  }

  /** The comment guard ignores the type: any earlier report by the user that
      names the comment (whatever its type) blocks a new comment report. */
  lemma CommentGuardIgnoresType(reports: seq<Row<Report>>, i: int, commentId: int, blogId: int,
                                reason: Option<string>, id: int, now: int)
    requires 0 <= i < |reports| && reports[i].val.commentId == Some(commentId)
    ensures AfterReportComment(reports, reports[i].val.userId, commentId, blogId, reason, id, now) == reports
  {
    var f := Filter(reports, IsCommentReportBy(reports[i].val.userId, commentId));
    assert reports[i] in f;
  }

  /** The PATCH of updateReportStatus: the new status and the resolution
      time; every other field of the report is kept. */
  function WithStatus(r: Report, status: string, now: int): (n: Report)
    ensures n.status == status && n.resolvedAt == Some(now)
    ensures n.userId == r.userId && n.kind == r.kind && n.blogId == r.blogId && n.commentId == r.commentId
    ensures n.reason == r.reason && n.createdAt == r.createdAt && n.actionTaken == r.actionTaken
  {
    r.(status := status, resolvedAt := Some(now))
  }

  /** updateReportStatus: a missing report is a 404. */
  method UpdateReportStatus(db: Db, reportId: int, status: string, now: int, reachable: bool) returns (r: Outcome)
    requires db.Valid()
    modifies db`reports
    ensures db.Valid()
    ensures reachable && Has(old(db.reports), reportId) ==>
              r == Done &&
              db.reports == Replace(old(db.reports), reportId, WithStatus(Find(old(db.reports), reportId).value.val, status, now))
    ensures !(reachable && Has(old(db.reports), reportId)) ==> r == Failed(STATUS_FAILED) && unchanged(db)
  {
    var found := Find(db.reports, reportId);
    if !reachable || found.None? {
      return Failed(STATUS_FAILED);
    }
    var n := WithStatus(found.value.val, status, now);
    ReplaceOk(db.reports, reportId, n, db.nextId);
    db.reports := Replace(db.reports, reportId, n);
    r := Done;
  }
}
