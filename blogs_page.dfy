/** The public Blogs page: the search and category filter over the fetched
    blogs, and the excerpt shown on each card. */
module BlogsPage {
  import opened Common
  import opened Records
  import opened Store

  const EXCERPT_LENGTH := 200

  /** matchesSearch && matchesCategory: the search text occurs in the title
      or the content, ignoring ASCII case, and an empty category selects
      every category. */
  function Matches(searchTerm: string, selectedCategory: string): Row<Blog> -> bool
  {
    (b: Row<Blog>) =>
      (IncludesIgnoringCase(b.val.title, searchTerm) || IncludesIgnoringCase(b.val.content, searchTerm)) &&
      (selectedCategory == "" || b.val.category == selectedCategory)
  }

  /** filteredBlogs. */
  function FilteredBlogs(blogs: seq<Row<Blog>>, searchTerm: string, selectedCategory: string): seq<Row<Blog>>
  {
    Filter(blogs, Matches(searchTerm, selectedCategory))
  }

  /** A blog is on the page exactly when it matches; the page keeps the
      fetched order; with no search and no category every blog is shown, and
      with no search the category alone decides. */
  lemma FilteredBlogsExactly(blogs: seq<Row<Blog>>, searchTerm: string, selectedCategory: string)
    ensures forall x :: x in FilteredBlogs(blogs, searchTerm, selectedCategory) <==>
              x in blogs &&
              (IncludesIgnoringCase(x.val.title, searchTerm) || IncludesIgnoringCase(x.val.content, searchTerm)) &&
              (selectedCategory == "" || x.val.category == selectedCategory)
    ensures IsSubsequence(FilteredBlogs(blogs, searchTerm, selectedCategory), blogs)
    ensures forall x :: x in FilteredBlogs(blogs, "", selectedCategory) <==>
              x in blogs && (selectedCategory == "" || x.val.category == selectedCategory)
    ensures FilteredBlogs(blogs, "", "") == blogs
  {
    forall x | x in blogs ensures IncludesIgnoringCase(x.val.title, "") {
      IncludesEmpty(x.val.title);
    }
    assert forall i :: 0 <= i < |blogs| ==> Matches("", "")(blogs[i]);
  }

  /** `content.substring(0, 200)`. */
  function Excerpt(content: string): (e: string)
    ensures |e| == if |content| < EXCERPT_LENGTH then |content| else EXCERPT_LENGTH
    ensures e <= content
  {
    if |content| < EXCERPT_LENGTH then content else content[..EXCERPT_LENGTH]
  }

  /** A content of at most 200 characters is shown whole, and cutting an
      excerpt again changes nothing. */
  lemma ExcerptFacts(content: string)
    ensures |content| <= EXCERPT_LENGTH ==> Excerpt(content) == content
    ensures Excerpt(Excerpt(content)) == Excerpt(content)
  {
  }
}
