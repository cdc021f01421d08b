/** categoryUtil: create, full replace, and the guarded delete. */
module CategoryUtil {
  import opened Common
  import opened Records
  import opened Store

  datatype CategoryResult = Saved(category: Row<Category>) | CategoryFailed(message: string)

  const ADD_FAILED := "Failed to add category"
  const UPDATE_FAILED := "Failed to update category"
  const DELETE_FAILED := "Failed to delete category"
  const IN_USE := "Cannot delete category that is in use by blogs"

  method AddCategory(db: Db, name: string, reachable: bool) returns (r: CategoryResult)
    requires db.Valid()
    modifies db`categories, db`nextId
    ensures db.Valid()
    ensures reachable ==> r == Saved(Row(old(db.nextId), Category(name))) &&
                          db.categories == old(db.categories) + [r.category] && db.nextId == old(db.nextId) + 1
    ensures !reachable ==> r == CategoryFailed(ADD_FAILED) && unchanged(db)
  {
    if !reachable {
      return CategoryFailed(ADD_FAILED);
    }
    AppendOk(db.categories, Category(name), db.nextId);
    r := Saved(Row(db.nextId, Category(name)));
    db.categories := db.categories + [r.category];
    db.nextId := db.nextId + 1;
  }

  /** updateCategory: a PUT, so the record becomes `{ name }` and nothing
      else; a missing category is a 404. */
  method UpdateCategory(db: Db, categoryId: int, name: string, reachable: bool) returns (r: CategoryResult)
    requires db.Valid()
    modifies db`categories
    ensures db.Valid()
    ensures reachable && Has(old(db.categories), categoryId) ==>
              r == Saved(Row(categoryId, Category(name))) &&
              db.categories == Replace(old(db.categories), categoryId, Category(name))
    ensures !(reachable && Has(old(db.categories), categoryId)) ==> r == CategoryFailed(UPDATE_FAILED) && unchanged(db)
  {
    if !reachable || !Has(db.categories, categoryId) {
      return CategoryFailed(UPDATE_FAILED);
    }
    ReplaceOk(db.categories, categoryId, Category(name), db.nextId);
    db.categories := Replace(db.categories, categoryId, Category(name));
    r := Saved(Row(categoryId, Category(name)));
  }

  /** `GET /blogs?category=<categoryId>`: blogs whose category field is the
      text of the category's id. Blogs store a category NAME, so this is the
      id compared against names. */
  predicate InUseById(blogs: seq<Row<Blog>>, categoryId: int)
  {
    exists i | 0 <= i < |blogs| :: blogs[i].val.category == Decimal(categoryId)
  }

  method DeleteCategory(db: Db, categoryId: int, reachable: bool) returns (r: Outcome)
    requires db.Valid()
    modifies db`categories
    ensures db.Valid()
    ensures reachable && InUseById(db.blogs, categoryId) ==> r == Failed(IN_USE) && unchanged(db)
    ensures reachable && !InUseById(db.blogs, categoryId) && Has(old(db.categories), categoryId) ==>
              r == Done && db.categories == Remove(old(db.categories), categoryId)
    ensures !reachable || (!InUseById(db.blogs, categoryId) && !Has(old(db.categories), categoryId)) ==>
              r == Failed(DELETE_FAILED) && unchanged(db)
  {
    if !reachable {
      return Failed(DELETE_FAILED);
    }
    if InUseById(db.blogs, categoryId) {
      return Failed(IN_USE);
    }
    if !Has(db.categories, categoryId) {
      return Failed(DELETE_FAILED);
    }
    RemoveOk(db.categories, categoryId, db.nextId);
    db.categories := Remove(db.categories, categoryId);
    r := Done;
  }

  /** The text of an id is made of digits and an optional leading minus. */
  lemma DecimalChars(n: int)
    ensures forall i :: 0 <= i < |Decimal(n)| ==> IsDigit(Decimal(n)[i]) || Decimal(n)[i] == '-'
  {
    if n < 0 {
      var d := Digits(-n);
      assert Decimal(n) == "-" + d;
      forall i | 1 <= i < |Decimal(n)| ensures IsDigit(Decimal(n)[i]) {
        assert Decimal(n)[i] == d[i - 1];
      }
    }
  }

  /** Because the guard compares the id with category names, a blog filed
      under a name that has any character other than a digit or '-' (every
      real category name) never blocks a delete, even when the category being
      deleted is the one it is filed under. */
  lemma NamedCategoriesNeverBlock(blogs: seq<Row<Blog>>, categoryId: int)
    requires forall i :: 0 <= i < |blogs| ==>
               exists k :: 0 <= k < |blogs[i].val.category| &&
                           !IsDigit(blogs[i].val.category[k]) && blogs[i].val.category[k] != '-'
    ensures !InUseById(blogs, categoryId)
  {
    DecimalChars(categoryId);
  }
}
