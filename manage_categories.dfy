/** The ManageCategories admin page: the modal that adds or renames a
    category, and the delete with its in-use guard, which looks blogs up by
    the category's NAME. */
module ManageCategoriesPage {
  import opened Common
  import opened Records
  import opened Store
  import CategoryUtil

  const IN_USE := "Cannot delete category that is in use by blogs"
  const DELETE_FAILED := "Failed to delete category"

  /** `GET /blogs?category=<name>` is non-empty. */
  predicate InUseByName(blogs: seq<Row<Blog>>, name: string)
  {
    exists i | 0 <= i < |blogs| :: blogs[i].val.category == name
  }

  /** The page's guard and the one in `CategoryUtil` disagree: with one
      blog filed under "Travel", the category 1 named "Travel" is refused
      here and let through there. */
  lemma GuardsDisagree(blogs: seq<Row<Blog>>)
    requires blogs == [Row(7, Blog("Lisbon", "Trams", "Travel", "", 2, "Ana", APPROVED, Some(0), 0))]
    ensures InUseByName(blogs, "Travel")
    ensures !CategoryUtil.InUseById(blogs, 1)
  {
    assert blogs[0].val.category == "Travel";
    assert Decimal(1) == "1" by {
      assert Digits(1) == [DigitChar(1)];
    }
  }

  class CategoriesPage {
    var categories: seq<Row<Category>>
    var modalVisible: bool
    var editing: Option<Row<Category>>
    /** The modal form's `name` field. */
    var formName: string

    constructor ()
      ensures categories == [] && !modalVisible && editing.None? && formName == ""
    {
      categories, modalVisible, editing, formName := [], false, None, "";
    }

    method FetchCategories(db: Db, reachable: bool)
      modifies this`categories
      ensures categories == if reachable then db.categories else old(categories)
    {
      if reachable {
        categories := db.categories;
      }
    }

    /** showModal: for an existing category the form shows its name, for a new
        one the form is reset. */
    method ShowModal(category: Option<Row<Category>>)
      modifies this`editing, this`formName, this`modalVisible
      ensures editing == category && modalVisible
      ensures formName == if category.Some? then category.value.val.name else ""
    {
      editing := category;
      formName := if category.Some? then category.value.val.name else "";
      modalVisible := true;
    }

    /** handleCancel. */
    method Cancel()
      modifies this`modalVisible, this`editing, this`formName
      ensures !modalVisible && editing.None? && formName == ""
    {
      modalVisible, editing, formName := false, None, "";
    }

    /** handleDelete: the name comes from the page's own list (an id missing
        from it throws before any request); the category is refused while a
        blog carries that name, and otherwise deleted from the store and the
        list. */
    method Delete(db: Db, id: int, reachable: bool) returns (r: Outcome)
      requires db.Valid()
      modifies db`categories, this`categories
      ensures db.Valid()
      ensures !Has(old(categories), id) || !reachable ==>
                r == Failed(DELETE_FAILED) && unchanged(db) && categories == old(categories)
      ensures Has(old(categories), id) && reachable && InUseByName(db.blogs, Find(old(categories), id).value.val.name) ==>
                r == Failed(IN_USE) && unchanged(db) && categories == old(categories)
      ensures r == Done <==>
                Has(old(categories), id) && reachable &&
                !InUseByName(db.blogs, Find(old(categories), id).value.val.name) && Has(old(db.categories), id)
      ensures r == Done ==> db.categories == Remove(old(db.categories), id) && categories == Remove(old(categories), id)
      ensures r != Done ==> unchanged(db) && categories == old(categories)
    {
      var local := Find(categories, id);
      if local.None? || !reachable {
        return Failed(DELETE_FAILED);
      }
      if InUseByName(db.blogs, local.value.val.name) {
        return Failed(IN_USE);
      }
      if !Has(db.categories, id) {
        return Failed(DELETE_FAILED);
      }
      RemoveOk(db.categories, id, db.nextId);
      db.categories := Remove(db.categories, id);
      categories := Remove(categories, id);
      r := Done;
    }

    /** handleSubmit: a PUT of `{ name }` over the category being edited, or a
        POST of a new one; on success the modal closes and the list is
        fetched again. The category being edited is not cleared. */
    method Submit(db: Db, name: string, reachable: bool) returns (ok: bool)
      requires db.Valid()
      modifies db`categories, db`nextId, this`modalVisible, this`categories
      ensures db.Valid()
      ensures editing.Some? ==> (ok <==> reachable && Has(old(db.categories), editing.value.id))
      ensures editing.Some? && ok ==>
                db.categories == Replace(old(db.categories), editing.value.id, Category(name)) &&
                db.nextId == old(db.nextId)
      ensures editing.None? ==> (ok <==> reachable)
      ensures editing.None? && ok ==>
                db.categories == old(db.categories) + [Row(old(db.nextId), Category(name))] &&
                db.nextId == old(db.nextId) + 1
      ensures ok ==> !modalVisible && categories == db.categories
      ensures !ok ==> unchanged(db) && modalVisible == old(modalVisible) && categories == old(categories)
    {
      var saved: CategoryUtil.CategoryResult;
      if editing.Some? {
        saved := CategoryUtil.UpdateCategory(db, editing.value.id, name, reachable);
      } else {
        saved := CategoryUtil.AddCategory(db, name, reachable);
      }
      if saved.CategoryFailed? {
        return false;
      }
      modalVisible := false;
      FetchCategories(db, reachable);
      ok := true;
    }
  }
}
