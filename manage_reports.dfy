/** The ManageReports admin page: the report list with its status tabs, the
    reporter names, approving and rejecting a report, and deleting the
    reported content together with the comments that hang on it. */
module ManageReportsPage {
  import opened Common
  import opened Records
  import opened Store
  import opened Sorting
  import opened ReportUtil
  import CommentUtil

  const DELETED := "deleted"

  /** getUserName: the name of the user with that id, else "User <id>". */
  function UserName(users: seq<Row<User>>, userId: int): (name: string)
    ensures Has(users, userId) ==> exists i :: 0 <= i < |users| && users[i].id == userId && name == users[i].val.name
    ensures !Has(users, userId) ==> name == "User " + Decimal(userId)
  {
    match Find(users, userId)
    case Some(u) => u.val.name
    case None => "User " + Decimal(userId)
  }

  // ---------------------------------------------------------------------------
  // Tabs
  // ---------------------------------------------------------------------------

  /** filteredReports: the reports of the active tab, in list order. */
  function Visible(reports: seq<Row<Report>>, tab: string): (shown: seq<Row<Report>>)
    ensures forall x :: x in shown <==> x in reports && x.val.status == tab
    ensures IsSubsequence(shown, reports)
  {
    Filter(reports, HasStatus(tab))
  }

  /** The number in a tab's label. */
  function TabCount(reports: seq<Row<Report>>, status: string): (n: nat)
    ensures n <= |reports|
    ensures n == |Visible(reports, status)|
  {
    Count(reports, HasStatus(status))
  }

  /** A tab shows exactly the reports of its status, in list order, as many
      as its label says; the three tabs together show each report at most
      once, and all of them when every status is one of the three. */
  lemma TabsPartition(reports: seq<Row<Report>>, tab: string)
    ensures forall x :: x in Visible(reports, tab) <==> x in reports && x.val.status == tab
    ensures IsSubsequence(Visible(reports, tab), reports)
    ensures |Visible(reports, tab)| == TabCount(reports, tab)
    ensures TabCount(reports, PENDING) + TabCount(reports, RESOLVED) + TabCount(reports, REJECTED) <= |reports|
    ensures (forall i :: 0 <= i < |reports| ==> reports[i].val.status in {PENDING, RESOLVED, REJECTED}) ==>
              TabCount(reports, PENDING) + TabCount(reports, RESOLVED) + TabCount(reports, REJECTED) == |reports|
  {
    CountDisjoint3(reports, HasStatus(PENDING), HasStatus(RESOLVED), HasStatus(REJECTED));
  }

  /** Approve and Reject are offered on pending reports only. */
  predicate OffersDecision(r: Row<Report>)
  {
    r.val.status == PENDING
  }

  // ---------------------------------------------------------------------------
  // Local updates
  // ---------------------------------------------------------------------------

  /** The page's `{ ...report, status, resolvedAt[, actionTaken] }`: the
      action is written only when one is given. */
  function PagePatch(r: Report, status: string, now: int, action: Option<string>): (n: Report)
    ensures n.status == status && n.resolvedAt == Some(now)
    ensures n.actionTaken == (if action.Some? then action else r.actionTaken)
    ensures n.userId == r.userId && n.kind == r.kind && n.blogId == r.blogId && n.commentId == r.commentId
    ensures n.reason == r.reason && n.createdAt == r.createdAt
  {
    WithStatus(r, status, now).(actionTaken := if action.Some? then action else r.actionTaken)
  }

  /** `reports.map(r => r.id === id ? { ...r, ... } : r)`. */
  function Settled(reports: seq<Row<Report>>, id: int, status: string, now: int, action: Option<string>)
    : (r: seq<Row<Report>>)
    ensures |r| == |reports|
    ensures forall i :: 0 <= i < |r| ==> r[i].id == reports[i].id
    ensures forall i :: 0 <= i < |r| && reports[i].id != id ==> r[i] == reports[i]
    ensures forall i :: 0 <= i < |r| && reports[i].id == id ==>
              r[i].val.status == status && r[i].val.resolvedAt == Some(now)
  {
    seq(|reports|, i requires 0 <= i < |reports| =>
      if reports[i].id == id then Row(id, PagePatch(reports[i].val, status, now, action)) else reports[i])
  }

  /** Once a report is resolved, rejected or its content deleted, the list
      and the drawer no longer offer a decision on it; every other report
      keeps its buttons. */
  lemma DecidedOnce(reports: seq<Row<Report>>, id: int, status: string, now: int, action: Option<string>)
    requires status != PENDING
    ensures forall i :: 0 <= i < |Settled(reports, id, status, now, action)| ==>
              (OffersDecision(Settled(reports, id, status, now, action)[i]) <==>
               reports[i].id != id && OffersDecision(reports[i]))
  {
  }

  /** With distinct ids, the page's local update is the store's patch: the
      report with that id is patched and every other row is left as it was. */
  lemma SettledIsReplace(reports: seq<Row<Report>>, id: int, status: string, now: int, action: Option<string>)
    requires UniqueIds(reports)
    ensures Has(reports, id) ==>
              Settled(reports, id, status, now, action) ==
              Replace(reports, id, PagePatch(Find(reports, id).value.val, status, now, action))
    ensures !Has(reports, id) ==> Settled(reports, id, status, now, action) == reports
  {
    if Has(reports, id) {
      var f := Find(reports, id).value;
      var j :| 0 <= j < |reports| && reports[j] == f;
      forall i | 0 <= i < |reports| && reports[i].id == id ensures reports[i] == f {
        assert i == j;
      }
    }
  }

  /** Settling the report with that id moves it from its old tab to the tab
      of its new status; every other tab keeps its count. */
  lemma {:induction false} SettleMovesTab(reports: seq<Row<Report>>, id: int, status: string, now: int,
                                           action: Option<string>, tab: string)
    requires UniqueIds(reports)
    ensures TabCount(Settled(reports, id, status, now, action), tab) ==
            TabCount(reports, tab)
            - (if Has(reports, id) && Find(reports, id).value.val.status == tab then 1 else 0)
            + (if Has(reports, id) && status == tab then 1 else 0)
    decreases |reports|
  {
    if reports != [] {
      var rest := reports[1..];
      var s := Settled(reports, id, status, now, action);
      assert s[1..] == Settled(rest, id, status, now, action);
      SettleMovesTab(rest, id, status, now, action, tab);
      CountCons(s, HasStatus(tab));
      CountCons(reports, HasStatus(tab));
      if reports[0].id == id {
        assert !Has(rest, id) by {
          forall k | 0 <= k < |rest| ensures rest[k].id != id {
            assert rest[k] == reports[k + 1];
          }
        }
      } else {
        FindTail(reports, id);
      }
    }
  }

  /** What the drawer shows of the reported content, as far as this page's
      handlers change it. */
  datatype Target = OfBlog(blogId: int) | OfComment(commentId: int) | NoTarget

  /** A JavaScript truthiness test on an id field: a missing id and the id 0
      are both false. */
  predicate Truthy(id: Option<int>)
  {
    id.Some? && id.value != 0
  }

  /** The branch `handleDeleteReportedContent` takes for a report. */
  function TargetOf(r: Report): (t: Target)
    ensures t.OfBlog? <==> r.kind == "blog" && Truthy(r.blogId)
    ensures t.OfComment? <==> !(r.kind == "blog" && Truthy(r.blogId)) && r.kind == "comment" && Truthy(r.commentId)
    ensures t.OfBlog? ==> Some(t.blogId) == r.blogId
    ensures t.OfComment? ==> Some(t.commentId) == r.commentId
  {
    if r.kind == "blog" && Truthy(r.blogId) then OfBlog(r.blogId.value)
    else if r.kind == "comment" && Truthy(r.commentId) then OfComment(r.commentId.value)
    else NoTarget
  }

  function OnBlog(blogId: int): Row<Comment> -> bool
  {
    (c: Row<Comment>) => c.val.blogId == blogId
  }

  /** The `for...of` loop: `DELETE /comments/<id>` for every listed comment. */
  method DeleteEach(db: Db, victims: seq<Row<Comment>>)
    requires db.Valid()
    modifies db`comments
    ensures db.Valid()
    ensures db.comments == Filter(old(db.comments), IdNotIn(victims))
  {
    ghost var c0 := db.comments;
    NoneListed(c0, victims[..0]);
    for k := 0 to |victims|
      invariant db.Valid()
      invariant db.comments == Filter(c0, IdNotIn(victims[..k]))
    {
      RemoveStep(c0, victims[..k], victims[k]);
      assert victims[..k] + [victims[k]] == victims[..k + 1];
      RemoveOk(db.comments, victims[k].id, db.nextId);
      db.comments := Remove(db.comments, victims[k].id);
    }
    assert victims[..|victims|] == victims;
  }

  /** Whether the reported blog or comment is still in the store. */
  ghost predicate TargetExists(db: Db, t: Target)
    reads db
  {
    match t
    case OfBlog(b) => Has(db.blogs, b)
    case OfComment(c) => Has(db.comments, c)
    case NoTarget => true
  }

  /** The deleting half of handleDeleteContent: a blog goes with every
      comment on it, a comment with its direct replies, in the store. A
      missing target leaves the store as it was. */
  method DeleteTarget(db: Db, t: Target) returns (present: bool)
    requires db.Valid()
    modifies db`blogs, db`comments
    ensures db.Valid()
    ensures present <==> old(TargetExists(db, t))
    ensures !present ==> db.blogs == old(db.blogs) && db.comments == old(db.comments)
    ensures present ==>
              match t
              case OfBlog(b) =>
                db.blogs == Remove(old(db.blogs), b) &&
                db.comments == Filter(old(db.comments), Not(OnBlog(b)))
              case OfComment(c) =>
                db.blogs == old(db.blogs) &&
                db.comments == Filter(Remove(old(db.comments), c), Not(CommentUtil.HasParent(Some(c))))
              case NoTarget =>
                db.blogs == old(db.blogs) && db.comments == old(db.comments)
  {
    match t {
      case OfBlog(b) =>
        if !Has(db.blogs, b) {
          return false;
        }
        RemoveOk(db.blogs, b, db.nextId);
        db.blogs := Remove(db.blogs, b);
        ghost var c0 := db.comments;
        var victims := Filter(db.comments, OnBlog(b));
        DeleteEach(db, victims);
        RemoveMatching(c0, OnBlog(b));
      case OfComment(c) =>
        if !Has(db.comments, c) {
          return false;
        }
        RemoveOk(db.comments, c, db.nextId);
        db.comments := Remove(db.comments, c);
        ghost var c0 := db.comments;
        var victims := Filter(db.comments, CommentUtil.HasParent(Some(c)));
        DeleteEach(db, victims);
        RemoveMatching(c0, CommentUtil.HasParent(Some(c)));
      case NoTarget =>
    }
    present := true;
  }

  class ReportsPage {
    var reports: seq<Row<Report>>
    var users: seq<Row<User>>
    var selected: Option<Row<Report>>
    var activeTab: string
    var contentDeleted: bool

    constructor ()
      ensures reports == [] && users == [] && selected.None? && activeTab == PENDING && !contentDeleted
    {
      reports, users, selected, activeTab, contentDeleted := [], [], None, PENDING, false;
    }

    /** fetchReports: `_sort=createdAt&_order=desc`. A failed request leaves
        the list as it was. */
    method FetchReports(db: Db, reachable: bool)
      modifies this`reports
      ensures reachable ==> multiset(reports) == multiset(db.reports) && SortedBy(reports, ReportTime, true)
      ensures !reachable ==> reports == old(reports)
    {
      if reachable {
        reports := SortBy(db.reports, ReportTime, true);
      }
    }

    method FetchUsers(db: Db, reachable: bool)
      modifies this`users
      ensures users == if reachable then db.users else old(users)
    {
      if reachable {
        users := db.users;
      }
    }

    /** The shared body of the approve and reject handlers: the PATCH, then
        the list and the open drawer, and only if the PATCH succeeded. */
    method Settle(db: Db, id: int, status: string, now: int, reachable: bool) returns (ok: bool)
      requires db.Valid()
      modifies db`reports, this`reports, this`selected
      ensures db.Valid()
      ensures ok <==> reachable && Has(old(db.reports), id)
      ensures ok ==>
                db.reports == Replace(old(db.reports), id, WithStatus(Find(old(db.reports), id).value.val, status, now)) &&
                reports == Settled(old(reports), id, status, now, None) &&
                selected == (if old(selected).Some? && old(selected).value.id == id
                             then Some(Row(id, PagePatch(old(selected).value.val, status, now, None)))
                             else old(selected))
      ensures !ok ==> unchanged(db) && reports == old(reports) && selected == old(selected)
    {
      var r := UpdateReportStatus(db, id, status, now, reachable);
      if r != Done {
        return false;
      }
      reports := Settled(reports, id, status, now, None);
      if selected.Some? && selected.value.id == id {
        selected := Some(Row(id, PagePatch(selected.value.val, status, now, None)));
      }
      ok := true;
    }

    /** handleApproveReport. */
    method Approve(db: Db, id: int, now: int, reachable: bool) returns (ok: bool)
      requires db.Valid()
      modifies db`reports, this`reports, this`selected
      ensures db.Valid()
      ensures ok <==> reachable && Has(old(db.reports), id)
      ensures ok ==>
                db.reports == Replace(old(db.reports), id, WithStatus(Find(old(db.reports), id).value.val, RESOLVED, now)) &&
                reports == Settled(old(reports), id, RESOLVED, now, None) &&
                selected == (if old(selected).Some? && old(selected).value.id == id
                             then Some(Row(id, PagePatch(old(selected).value.val, RESOLVED, now, None)))
                             else old(selected))
      ensures !ok ==> unchanged(db) && reports == old(reports) && selected == old(selected)
    {
      ok := Settle(db, id, RESOLVED, now, reachable);
    }

    /** handleRejectReport. */
    method Reject(db: Db, id: int, now: int, reachable: bool) returns (ok: bool)
      requires db.Valid()
      modifies db`reports, this`reports, this`selected
      ensures db.Valid()
      ensures ok <==> reachable && Has(old(db.reports), id)
      ensures ok ==>
                db.reports == Replace(old(db.reports), id, WithStatus(Find(old(db.reports), id).value.val, REJECTED, now)) &&
                reports == Settled(old(reports), id, REJECTED, now, None) &&
                selected == (if old(selected).Some? && old(selected).value.id == id
                             then Some(Row(id, PagePatch(old(selected).value.val, REJECTED, now, None)))
                             else old(selected))
      ensures !ok ==> unchanged(db) && reports == old(reports) && selected == old(selected)
    {
      ok := Settle(db, id, REJECTED, now, reachable);
    }

    /** An Approve or Reject button. The table renders them in the row of a
        pending report only, and the drawer only while the report it shows
        is pending (the drawer's buttons act on `selected`), so a click on a
        report that is not pending sends nothing. */
    method Decide(db: Db, record: Row<Report>, approve: bool, now: int, reachable: bool) returns (sent: bool, ok: bool)
      requires db.Valid()
      modifies db`reports, this`reports, this`selected
      ensures db.Valid()
      ensures sent <==> OffersDecision(record)
      ensures ok <==> sent && reachable && Has(old(db.reports), record.id)
      ensures ok ==>
                var status := if approve then RESOLVED else REJECTED;
                db.reports == Replace(old(db.reports), record.id,
                                      WithStatus(Find(old(db.reports), record.id).value.val, status, now)) &&
                reports == Settled(old(reports), record.id, status, now, None) &&
                selected == (if old(selected).Some? && old(selected).value.id == record.id
                             then Some(Row(record.id, PagePatch(old(selected).value.val, status, now, None)))
                             else old(selected))
      ensures !ok ==> unchanged(db) && reports == old(reports) && selected == old(selected)
    {
      sent, ok := false, false;
      if OffersDecision(record) {
        sent := true;
        if approve {
          ok := Approve(db, record.id, now, reachable);
        } else {
          ok := Reject(db, record.id, now, reachable);
        }
      }
    }

    /** handleDeleteReportedContent: deletes the reported blog and every
        comment on it, or the reported comment and its direct replies, then
        marks the report resolved with the action "deleted". A missing target
        stops the handler before anything is written; a missing report stops
        it after the content is gone. */
    method DeleteReportedContent(db: Db, report: Row<Report>, now: int, reachable: bool) returns (ok: bool)
      requires db.Valid()
      modifies db`blogs, db`comments, db`reports, this`reports, this`contentDeleted
      ensures db.Valid()
      ensures ok <==> reachable && old(TargetExists(db, TargetOf(report.val))) && Has(old(db.reports), report.id)
      ensures !(reachable && old(TargetExists(db, TargetOf(report.val)))) ==>
                unchanged(db) && reports == old(reports) && contentDeleted == old(contentDeleted)
      ensures reachable && old(TargetExists(db, TargetOf(report.val))) ==>
                match TargetOf(report.val)
                case OfBlog(b) =>
                  db.blogs == Remove(old(db.blogs), b) &&
                  db.comments == Filter(old(db.comments), Not(OnBlog(b)))
                case OfComment(c) =>
                  db.blogs == old(db.blogs) &&
                  db.comments == Filter(Remove(old(db.comments), c), Not(CommentUtil.HasParent(Some(c))))
                case NoTarget =>
                  db.blogs == old(db.blogs) && db.comments == old(db.comments)
      ensures ok ==>
                db.reports == Replace(old(db.reports), report.id,
                                      PagePatch(Find(old(db.reports), report.id).value.val, RESOLVED, now, Some(DELETED))) &&
                reports == Settled(old(reports), report.id, RESOLVED, now, Some(DELETED)) &&
                contentDeleted
      ensures !ok ==> db.reports == old(db.reports) && reports == old(reports) && contentDeleted == old(contentDeleted)
    {
      if !reachable {
        return false;
      }
      var present := DeleteTarget(db, TargetOf(report.val));
      if !present {
        return false;
      }
      var found := Find(db.reports, report.id);
      if found.None? {
        return false;
      }
      var n := PagePatch(found.value.val, RESOLVED, now, Some(DELETED));
      ReplaceOk(db.reports, report.id, n, db.nextId);
      db.reports := Replace(db.reports, report.id, n);
      reports := Settled(reports, report.id, RESOLVED, now, Some(DELETED));
      contentDeleted := true;
      ok := true;
    }
  }

  /** Deleting a reported comment takes its direct replies with it and
      nothing deeper: a reply to a reply survives, as does every comment
      that is neither the reported one nor one of its replies. */
  lemma ReplyCascadeOneLevel(comments: seq<Row<Comment>>, c: int, x: Row<Comment>)
    ensures var after := Filter(Remove(comments, c), Not(CommentUtil.HasParent(Some(c))));
            x in after <==> x in comments && x.id != c && x.val.parentId != Some(c)
  {
  }
}
