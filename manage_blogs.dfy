/** The ManageBlogs admin page: approving, rejecting and deleting blogs,
    moving a blog to another category, and the category and status filters
    over the list. */
module ManageBlogsPage {
  import opened Common
  import opened Records
  import opened Store
  import opened Sorting

  /** The fields the page's PATCH requests write. */
  datatype BlogEdit = SetStatus(status: string) | SetCategory(category: string)

  /** `{ ...blog, status }` or `{ ...blog, category }`. */
  function Edit(b: Blog, e: BlogEdit): (n: Blog)
    ensures e.SetStatus? ==> n == b.(status := e.status)
    ensures e.SetCategory? ==> n == b.(category := e.category)
    ensures n.title == b.title && n.content == b.content && n.authorId == b.authorId && n.likes == b.likes
  {
    match e
    case SetStatus(s) => b.(status := s)
    case SetCategory(c) => b.(category := c)
  }

  /** `prev.map(blog => blog.id === id ? { ...blog, <field> } : blog)`. */
  function Edited(blogs: seq<Row<Blog>>, id: int, e: BlogEdit): (r: seq<Row<Blog>>)
    ensures |r| == |blogs|
    ensures forall i :: 0 <= i < |r| ==> r[i].id == blogs[i].id
    ensures forall i :: 0 <= i < |r| && blogs[i].id != id ==> r[i] == blogs[i]
    ensures forall i :: 0 <= i < |r| && blogs[i].id == id ==> r[i].val.title == blogs[i].val.title
  {
    seq(|blogs|, i requires 0 <= i < |blogs| => if blogs[i].id == id then Row(id, Edit(blogs[i].val, e)) else blogs[i])
  }

  /** With distinct ids the page's local edit is the store's patch: the blog
      with that id gets the new field and every other row is left as it was. */
  lemma EditedIsReplace(blogs: seq<Row<Blog>>, id: int, e: BlogEdit)
    requires UniqueIds(blogs)
    ensures Has(blogs, id) ==> Edited(blogs, id, e) == Replace(blogs, id, Edit(Find(blogs, id).value.val, e))
    ensures !Has(blogs, id) ==> Edited(blogs, id, e) == blogs
  {
    if Has(blogs, id) {
      var f := Find(blogs, id).value;
      var j :| 0 <= j < |blogs| && blogs[j] == f;
      forall i | 0 <= i < |blogs| && blogs[i].id == id ensures blogs[i] == f {
        assert i == j;
      }
    }
  }

  /** filteredBlogs: an empty filter matches every blog. */
  function Matches(category: string, status: string): Row<Blog> -> bool
  {
    (b: Row<Blog>) => (category == "" || b.val.category == category) && (status == "" || b.val.status == status)
  }

  function Shown(blogs: seq<Row<Blog>>, category: string, status: string): seq<Row<Blog>>
  {
    Filter(blogs, Matches(category, status))
  }

  /** The list shows, in order, exactly the blogs that pass both filters, and
      everything when both are empty. */
  lemma ShownExactly(blogs: seq<Row<Blog>>, category: string, status: string)
    ensures forall x :: x in Shown(blogs, category, status) <==>
              x in blogs && (category == "" || x.val.category == category) && (status == "" || x.val.status == status)
    ensures IsSubsequence(Shown(blogs, category, status), blogs)
    ensures Shown(blogs, "", "") == blogs
  {
    assert forall i :: 0 <= i < |blogs| ==> Matches("", "")(blogs[i]);
  }

  /** Approving a blog takes it out of the pending view and leaves every
      other pending blog in it. */
  lemma ApproveLeavesPending(blogs: seq<Row<Blog>>, id: int, x: Row<Blog>)
    ensures x in Shown(Edited(blogs, id, SetStatus(APPROVED)), "", PENDING) <==>
            x in Shown(blogs, "", PENDING) && x.id != id
  {
    var after := Edited(blogs, id, SetStatus(APPROVED));
    if x in after && x.val.status == PENDING {
      var i :| 0 <= i < |after| && after[i] == x;
      assert blogs[i] == x;
    }
    if x in blogs && x.val.status == PENDING && x.id != id {
      var i :| 0 <= i < |blogs| && blogs[i] == x;
      assert after[i] == x;
    }
  }

  /** Approve and Reject are rendered for pending blogs only. */
  predicate OffersDecision(b: Row<Blog>)
  {
    b.val.status == PENDING
  }

  /** Once a blog is approved or rejected, the list and the drawer no longer
      offer a decision on it; every other blog keeps its buttons. */
  lemma DecidedOnce(blogs: seq<Row<Blog>>, id: int, status: string)
    requires status != PENDING
    ensures forall i :: 0 <= i < |Edited(blogs, id, SetStatus(status))| ==>
              (OffersDecision(Edited(blogs, id, SetStatus(status))[i]) <==> blogs[i].id != id && OffersDecision(blogs[i]))
  {
  }

  class BlogsPage {
    var blogs: seq<Row<Blog>>
    var categories: seq<Row<Category>>
    var selected: Option<Row<Blog>>
    var drawerVisible: bool
    var selectedCategory: string
    var filterStatus: string

    constructor ()
      ensures blogs == [] && categories == [] && selected.None? && !drawerVisible
      ensures selectedCategory == "" && filterStatus == ""
    {
      blogs, categories, selected, drawerVisible := [], [], None, false;
      selectedCategory, filterStatus := "", "";
    }

    /** fetchData: blogs newest first, then the categories. */
    method Fetch(db: Db, reachable: bool)
      modifies this`blogs, this`categories
      ensures reachable ==> multiset(blogs) == multiset(db.blogs) && SortedBy(blogs, BlogTime, true) &&
                            categories == db.categories
      ensures !reachable ==> blogs == old(blogs) && categories == old(categories)
    {
      if reachable {
        blogs := SortBy(db.blogs, BlogTime, true);
        categories := db.categories;
      }
    }

    /** The PATCH and the local update shared by approve, reject and the
        category change. A missing blog is a 404 and changes nothing. */
    method Patch(db: Db, id: int, e: BlogEdit, reachable: bool) returns (ok: bool)
      requires db.Valid()
      modifies db`blogs, this`blogs, this`selected
      ensures db.Valid()
      ensures ok <==> reachable && Has(old(db.blogs), id)
      ensures ok ==>
                db.blogs == Replace(old(db.blogs), id, Edit(Find(old(db.blogs), id).value.val, e)) &&
                blogs == Edited(old(blogs), id, e) &&
                selected == (if old(selected).Some? && old(selected).value.id == id
                             then Some(Row(id, Edit(old(selected).value.val, e))) else old(selected))
      ensures !ok ==> unchanged(db) && blogs == old(blogs) && selected == old(selected)
    {
      var found := Find(db.blogs, id);
      if !reachable || found.None? {
        return false;
      }
      var n := Edit(found.value.val, e);
      ReplaceOk(db.blogs, id, n, db.nextId);
      db.blogs := Replace(db.blogs, id, n);
      blogs := Edited(blogs, id, e);
      if selected.Some? && selected.value.id == id {
        selected := Some(Row(id, Edit(selected.value.val, e)));
      }
      ok := true;
    }

    /** handleApproveBlog. */
    method Approve(db: Db, id: int, reachable: bool) returns (ok: bool)
      requires db.Valid()
      modifies db`blogs, this`blogs, this`selected
      ensures db.Valid()
      ensures ok <==> reachable && Has(old(db.blogs), id)
      ensures ok ==> db.blogs == Replace(old(db.blogs), id, Find(old(db.blogs), id).value.val.(status := APPROVED))
      ensures ok ==> blogs == Edited(old(blogs), id, SetStatus(APPROVED))
      ensures ok ==> selected == (if old(selected).Some? && old(selected).value.id == id
                                  then Some(Row(id, old(selected).value.val.(status := APPROVED))) else old(selected))
      ensures !ok ==> unchanged(db) && blogs == old(blogs) && selected == old(selected)
    {
      ok := Patch(db, id, SetStatus(APPROVED), reachable);
    }

    /** handleRejectBlog. */
    method Reject(db: Db, id: int, reachable: bool) returns (ok: bool)
      requires db.Valid()
      modifies db`blogs, this`blogs, this`selected
      ensures db.Valid()
      ensures ok <==> reachable && Has(old(db.blogs), id)
      ensures ok ==> db.blogs == Replace(old(db.blogs), id, Find(old(db.blogs), id).value.val.(status := REJECTED))
      ensures ok ==> blogs == Edited(old(blogs), id, SetStatus(REJECTED))
      ensures ok ==> selected == (if old(selected).Some? && old(selected).value.id == id
                                  then Some(Row(id, old(selected).value.val.(status := REJECTED))) else old(selected))
      ensures !ok ==> unchanged(db) && blogs == old(blogs) && selected == old(selected)
    {
      ok := Patch(db, id, SetStatus(REJECTED), reachable);
    }

    /** handleCategoryChange: stores the category NAME in the blog. */
    method ChangeCategory(db: Db, blogId: int, categoryName: string, reachable: bool) returns (ok: bool)
      requires db.Valid()
      modifies db`blogs, this`blogs, this`selected
      ensures db.Valid()
      ensures ok <==> reachable && Has(old(db.blogs), blogId)
      ensures ok ==> db.blogs == Replace(old(db.blogs), blogId, Find(old(db.blogs), blogId).value.val.(category := categoryName))
      ensures ok ==> blogs == Edited(old(blogs), blogId, SetCategory(categoryName))
      ensures ok ==> selected == (if old(selected).Some? && old(selected).value.id == blogId
                                  then Some(Row(blogId, old(selected).value.val.(category := categoryName))) else old(selected))
      ensures !ok ==> unchanged(db) && blogs == old(blogs) && selected == old(selected)
    {
      ok := Patch(db, blogId, SetCategory(categoryName), reachable);
    }

    /** An Approve or Reject button. The table renders them in the row of a
        pending blog only, and the drawer only while the blog it shows is
        pending (the drawer's buttons act on `selected`), so a click on a
        blog that is not pending sends nothing. */
    method Decide(db: Db, record: Row<Blog>, approve: bool, reachable: bool) returns (sent: bool, ok: bool)
      requires db.Valid()
      modifies db`blogs, this`blogs, this`selected
      ensures db.Valid()
      ensures sent <==> OffersDecision(record)
      ensures ok <==> sent && reachable && Has(old(db.blogs), record.id)
      ensures ok ==>
                var status := if approve then APPROVED else REJECTED;
                db.blogs == Replace(old(db.blogs), record.id, Find(old(db.blogs), record.id).value.val.(status := status)) &&
                blogs == Edited(old(blogs), record.id, SetStatus(status)) &&
                selected == (if old(selected).Some? && old(selected).value.id == record.id
                             then Some(Row(record.id, old(selected).value.val.(status := status))) else old(selected))
      ensures !ok ==> unchanged(db) && blogs == old(blogs) && selected == old(selected)
    {
      sent, ok := false, false;
      if OffersDecision(record) {
        sent := true;
        if approve {
          ok := Approve(db, record.id, reachable);
        } else {
          ok := Reject(db, record.id, reachable);
        }
      }
    }

    /** handleDeleteBlog: the blog goes from the store and from the list; its
        comments, likes and reports stay in the store. The drawer closes when
        it shows that blog. */
    method Delete(db: Db, id: int, reachable: bool) returns (ok: bool)
      requires db.Valid()
      modifies db`blogs, this`blogs, this`drawerVisible
      ensures db.Valid()
      ensures ok <==> reachable && Has(old(db.blogs), id)
      ensures ok ==> db.blogs == Remove(old(db.blogs), id) && blogs == Remove(old(blogs), id)
      ensures ok ==> drawerVisible == (if selected.Some? && selected.value.id == id then false else old(drawerVisible))
      ensures !ok ==> unchanged(db) && blogs == old(blogs) && drawerVisible == old(drawerVisible)
    {
      if !reachable || !Has(db.blogs, id) {
        return false;
      }
      RemoveOk(db.blogs, id, db.nextId);
      db.blogs := Remove(db.blogs, id);
      blogs := Remove(blogs, id);
      if selected.Some? && selected.value.id == id {
        drawerVisible := false;
      }
      ok := true;
    }
  }

  function BlogTime(b: Row<Blog>): int
  {
    b.val.createdAt
  }
}
