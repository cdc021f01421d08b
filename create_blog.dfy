/** The CreateBlog page: the form edited field by field, the required-field
    guard, and the blog it publishes for the logged-in user. */
module CreateBlogPage {
  import opened Common
  import opened Records
  import opened Store
  import BlogUtil

  const FIELDS_REQUIRED := "Please fill all required fields"
  const CREATE_FAILED := "Failed to create blog"
  const AFTER_PUBLISH := "/blogs"

  datatype BlogForm = BlogForm(title: string, content: string, category: string, imageUrl: string)

  const EMPTY_FORM := BlogForm("", "", "", "")

  /** The `name` attributes of the form's inputs. */
  datatype FieldName = TitleField | ContentField | CategoryField | ImageUrlField

  function FieldOf(f: BlogForm, name: FieldName): string
  {
    match name
    case TitleField => f.title
    case ContentField => f.content
    case CategoryField => f.category
    case ImageUrlField => f.imageUrl
  }

  /** `{ ...prev, [name]: value }`: the named field takes the value and every
      other field is kept. */
  function WithField(f: BlogForm, name: FieldName, value: string): (g: BlogForm)
    ensures FieldOf(g, name) == value
    ensures forall other :: other != name ==> FieldOf(g, other) == FieldOf(f, other)
  {
    match name
    case TitleField => f.(title := value)
    case ContentField => f.(content := value)
    case CategoryField => f.(category := value)
    case ImageUrlField => f.(imageUrl := value)
  }

  /** Typing into one field and then another gives the same form in either
      order, and the second value typed into a field replaces the first. */
  lemma {:induction false} WithFieldCommutes(f: BlogForm, a: FieldName, u: string, b: FieldName, v: string)
    ensures a != b ==> WithField(WithField(f, a, u), b, v) == WithField(WithField(f, b, v), a, u)
    ensures WithField(WithField(f, a, u), a, v) == WithField(f, a, v)
  {
    if a != b {
      FieldsDetermine(WithField(WithField(f, a, u), b, v), WithField(WithField(f, b, v), a, u));
    }
    FieldsDetermine(WithField(WithField(f, a, u), a, v), WithField(f, a, v));
  }

  lemma FieldsDetermine(f: BlogForm, g: BlogForm)
    requires forall n :: FieldOf(f, n) == FieldOf(g, n)
    ensures f == g
  {
    assert FieldOf(f, TitleField) == FieldOf(g, TitleField);
    assert FieldOf(f, ContentField) == FieldOf(g, ContentField);
    assert FieldOf(f, CategoryField) == FieldOf(g, CategoryField);
    assert FieldOf(f, ImageUrlField) == FieldOf(g, ImageUrlField);
  }

  /** The guard of handleSubmit: every field is non-empty. */
  predicate Complete(f: BlogForm)
  {
    f.title != "" && f.content != "" && f.category != "" && f.imageUrl != ""
  }

  /** Only emptiness is checked: a title or content made of white space,
      which trims to nothing, still passes. */
  lemma BlankTextAccepted(f: BlogForm)
    requires f.title != "" && f.content != "" && f.category != "" && f.imageUrl != ""
    requires IsBlank(f.title) && IsBlank(f.content)
    ensures Complete(f)
    ensures Trim(f.title) == "" && Trim(f.content) == ""
  {
    TrimEmptyIffBlank(f.title);
    TrimEmptyIffBlank(f.content);
  }

  /** The draft handed to the store: the form plus the author. */
  function Draft(f: BlogForm, author: Row<User>): BlogUtil.BlogDraft
  {
    BlogUtil.BlogDraft(f.title, f.content, f.category, f.imageUrl, author.id, author.val.name, None, None)
  }

  class CreateBlogForm {
    var formData: BlogForm
    var previewImage: Option<string>
    var categories: seq<Row<Category>>
    /** Where the page navigated after publishing, if it did. */
    var navigatedTo: Option<string>

    constructor ()
      ensures formData == EMPTY_FORM && previewImage.None? && categories == [] && navigatedTo.None?
    {
      formData, previewImage, categories, navigatedTo := EMPTY_FORM, None, [], None;
    }

    method FetchCategories(db: Db, reachable: bool)
      modifies this`categories
      ensures categories == if reachable then db.categories else old(categories)
    {
      if reachable {
        categories := db.categories;
      }
    }

    /** handleChange. */
    method HandleChange(name: FieldName, value: string)
      modifies this`formData
      ensures formData == WithField(old(formData), name, value)
    {
      formData := WithField(formData, name, value);
    }

    /** The end of handleImageChange once the file is read. */
    method ImageLoaded(dataUrl: string)
      modifies this`formData, this`previewImage
      ensures formData == WithField(old(formData), ImageUrlField, dataUrl) && previewImage == Some(dataUrl)
    {
      previewImage := Some(dataUrl);
      formData := formData.(imageUrl := dataUrl);
    }

    /** handleSubmit. An incomplete form posts nothing. Reading the author
        from a missing user throws inside the request's `try`, so it fails
        like the request. Otherwise the form is published as an approved blog
        with no likes, by the logged-in user, and the page goes to the list. */
    method Submit(db: Db, currentUser: Option<Row<User>>, now: int, reachable: bool) returns (r: Outcome)
      requires db.Valid()
      modifies db`blogs, db`nextId, this`navigatedTo
      ensures db.Valid()
      ensures !Complete(formData) ==> r == Failed(FIELDS_REQUIRED)
      ensures Complete(formData) && !(currentUser.Some? && reachable) ==> r == Failed(CREATE_FAILED)
      ensures r == Done <==> Complete(formData) && currentUser.Some? && reachable
      ensures r == Done ==>
                db.blogs == old(db.blogs) + [Row(old(db.nextId), BlogUtil.Publish(Draft(formData, currentUser.value), now))] &&
                db.nextId == old(db.nextId) + 1 && navigatedTo == Some(AFTER_PUBLISH)
      ensures r != Done ==> unchanged(db) && navigatedTo == old(navigatedTo)
    {
      if !Complete(formData) {
        return Failed(FIELDS_REQUIRED);
      }
      if currentUser.None? {
        return Failed(CREATE_FAILED);
      }
      var created := BlogUtil.CreateBlog(db, Draft(formData, currentUser.value), now, reachable);
      if created.CreateFailed? {
        return Failed(CREATE_FAILED);
      }
      navigatedTo := Some(AFTER_PUBLISH);
      r := Done;
    }
  }

  /** The published blog is the form's four fields, the author's id and
      name, status "approved", a like count of 0 and the time of posting. */
  lemma PublishedBlog(f: BlogForm, author: Row<User>, now: int)
    ensures var b := BlogUtil.Publish(Draft(f, author), now);
            b == Blog(f.title, f.content, f.category, f.imageUrl, author.id, author.val.name, APPROVED, Some(0), now)
  {
  }
}
