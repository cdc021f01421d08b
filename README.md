# Global Travel Blog — a Dafny model of the client core

Global Travel Blog is a React single-page application for sharing travel
stories. It has users, blogs, threaded comments, likes on blogs and comments,
reports, categories and destinations, and an admin area. All of its state
lives in a json-server store that it talks to over HTTP. This project models
the parts of the client that decide what is written to the store and what the
pages show:

- the utility layer: `blogUtil`, `commentUtil`, `reportUtil`, `userUtil`
  and `categoryUtil`;
- the authentication context and the two route gates;
- the signup, create-blog, single-blog, blog-list and destination-list pages;
- the six admin pages: analytics, reports, blogs, categories, destinations
  and users.

How the model is built:

- **The store.** The store is the class `Store.Db`. Each collection is a
  `seq<Row<T>>` field, and `nextId` is the id the next insert receives. Its
  invariant `Valid()` says that ids are unique in every collection and all
  lie below `nextId`. Every write the client makes is one assignment to a
  field:
  - a POST appends a row;
  - a PUT replaces the whole record;
  - a PATCH replaces some fields;
  - a DELETE removes the row.

  A missing id is a 404, and every operation has that branch.
- **The outside world.** A network failure is the parameter
  `reachable: bool`. The clock is the parameter `now: int`. Timestamps are
  integers that order the same way as the ISO strings.
- **Page components.** Each page whose handlers change its state step by
  step is a class. Its fields are the component's `useState` variables. Its
  methods are the handlers, and each states the new store and page state.
- **Pure parts.** The pure parts are functions with lemmas about them: the
  filters, the tab counts, the totals, the chart series, the route gates
  and the signup validators.

Blogs record their category by NAME. Two guards check whether a category is
still in use, and they disagree:

- `categoryUtil.deleteCategory` looks blogs up by the category's id, so a
  named category never blocks a delete (`CategoryUtil.NamedCategoriesNeverBlock`).
- The ManageCategories page looks blogs up by name.

`ManageCategoriesPage.GuardsDisagree` exhibits one store where the two
answer differently.

## Model

| member | source | states |
|---|---|---|
| Store.Find | src/pages/admin/ManageReports.js:64-67 | the row found has the id asked for and is in the collection; a row is found exactly when one has that id |
| Store.Remove | src/pages/admin/ManageBlogs.js:97-110 | `prev.filter(x => x.id !== id)`: exactly the rows with another id remain, in their order; removing a missing id changes nothing |
| Store.Replace | src/util/category.util.js:29-38 | a PUT or PATCH of one id: same length, the rows with that id become the new record, every other row is kept |
| Store.RemoveOk | src/util/comment.util.js:72-81 | a DELETE keeps ids unique and below the next id |
| Store.AppendOk | src/util/blog.util.js:39-54 | a POST at the next id keeps ids unique and below the new next id |
| Store.RemoveAt | src/pages/admin/ManageDestinations.js:87-96 | with unique ids, removing the id of row i drops exactly position i |
| Store.RemoveStep | src/pages/admin/ManageReports.js:189-191 | each DELETE in the loop over comments removes one more of the listed rows |
| Store.RemoveMatching | src/pages/admin/ManageReports.js:188-191 | deleting, one by one, every row a query returned leaves exactly the rows the query did not match |
| Sorting.SortBy | src/pages/admin/ManageBlogs.js:41 | `_sort=createdAt&_order=desc`: the result is a permutation of the input, ordered by the key |
| Sorting.SortByMembers | src/pages/admin/ManageReports.js:45 | sorting keeps exactly the same members |
| Sorting.FilterSorted | src/util/comment.util.js:24-38 | filtering a sorted list keeps it sorted |
| Common.TrimEmptyIffBlank | src/pages/SingleBlog.js:68 | `!s.trim()` holds exactly when every character is JavaScript white space |
| Common.IncludesEmpty | src/pages/Blogs.js:35-37 | every text includes the empty search text, ignoring case |
| Common.ParseDecimal | src/pages/admin/Analytics.js:106 | `Number.parseInt` of an id written in decimal gives the id back |
| Common.SplitLength | src/pages/SingleBlog.js:129 | `split` gives one piece more than there are separators |
| Common.SplitJoin | src/pages/SingleBlog.js:129 | joining the pieces with the separator gives the text back |
| Common.FilterIdempotent | src/pages/Destinations.js:27-31 | filtering twice with the same predicate changes nothing |
| Engagement.Matching | src/util/blog.util.js:85 | `likes?userId=&blogId=` returns exactly the rows pairing that user with that target |
| Engagement.Unliked | src/util/blog.util.js:93 | `Math.max(0, (likes \|\| 0) - 1)`: never negative, and one less than a positive count |
| Engagement.Liked | src/util/blog.util.js:109 | `(likes \|\| 0) + 1` is above the old count, and an unlike right after it gives a non-negative count back |
| Engagement.CheckLiked | src/util/blog.util.js:123-131 | a blog counts as liked exactly when some row pairs the user with it; a failed request answers false |
| Engagement.UnlikeRemovesFirst | src/util/blog.util.js:83-89 | an unlike deletes only the first row for the pair, or nothing when there is none, and takes one copy of the pair out of the rows |
| Engagement.LikeAlwaysAdds | src/util/blog.util.js:99-104 | a like posts one more row for the pair, even when the user already liked the target |
| Engagement.LikeThenUnlike | src/util/comment.util.js:84-125 | a like then an unlike gives back the same pairs and the same count |
| Engagement.CounterNeverNegative | src/util/comment.util.js:97 | a count that starts non-negative stays non-negative over any run of toggles |
| Engagement.UnlikeWithoutRow | src/util/blog.util.js:84-96 | the toggle trusts its `isLiked` argument: an unlike with no row still lowers a positive count, so rows and count drift apart |
| Engagement.PairsAppend | src/util/blog.util.js:99-104 | the pairs of two row lists joined are the union of their pairs |
| Engagement.PairsWithout | src/util/blog.util.js:83-89 | deleting the row at one position takes exactly that row's pair out of the pairs |
| BlogUtil.Publish | src/util/blog.util.js:39-54 | the posted blog is the caller's fields plus the time, with status forced to "approved" and likes to 0 |
| BlogUtil.CreateBlog | src/util/blog.util.js:39-54 | success appends exactly that blog at the next id; a failed request writes nothing |
| BlogUtil.ToggleLikeBlog | src/util/blog.util.js:81-120 | the like rows change as Engagement describes, then the blog's counter is rewritten from its stored value; a blog missing at that point fails after the row step |
| BlogUtil.BlogsByAuthor | src/util/blog.util.js:28-36 | exactly the author's blogs, in store order; no answer when the request fails |
| CommentUtil.BlogComments | src/util/comment.util.js:6-19 | exactly the comments of that blog and parent: top-level newest first, replies oldest first |
| CommentUtil.GroupByParent | src/util/comment.util.js:27-33 | `repliesMap` has a key for each parent that has replies, and under it exactly those replies in the order given |
| CommentUtil.GroupStep | src/util/comment.util.js:28-33 | one more reply extends exactly its own parent's group |
| CommentUtil.GroupPush | src/util/comment.util.js:28-33 | pushing a reply onto its parent's list, created on first use, keeps the map grouped over the replies seen so far |
| CommentUtil.GetBlogReplies | src/util/comment.util.js:22-40 | every group holds exactly the replies to that parent on that blog, oldest first |
| CommentUtil.ReplyGroup | src/util/comment.util.js:24-36 | a group's key is never null, and the group is sorted oldest first |
| CommentUtil.PostedComment | src/util/comment.util.js:43-57 | the posted comment is the caller's fields plus the time, with likes forced to 0 |
| CommentUtil.AddComment | src/util/comment.util.js:43-57 | success appends that comment at the next id; failure writes nothing |
| CommentUtil.UpdateComment | src/util/comment.util.js:60-69 | only the content of that comment changes; a missing comment is an error |
| CommentUtil.DeleteComment | src/util/comment.util.js:72-81 | exactly that comment goes; its replies stay in the store |
| CommentUtil.ToggleLikeComment | src/util/comment.util.js:84-125 | the row step, then the counter rewritten from the stored value; the answer carries the updated comment |
| CommentUtil.LikedComments | src/util/comment.util.js:131-135 | `likesMap` has `true` under exactly the comment ids that have a row |
| CommentUtil.GetUserCommentLikes | src/util/comment.util.js:128-142 | exactly the comments the user has a like row on; empty when the request fails |
| ReportUtil.ReportsByStatus | src/util/report.util.js:17-25 | exactly the reports with that status, newest first |
| ReportUtil.NewBlogReport | src/util/report.util.js:39-46 | a pending report of type "blog" for that blog by that user, with the default reason when none is given |
| ReportUtil.ReasonOrDefault | src/util/report.util.js:28 | the default parameter "Inappropriate content"; NewBlogReport and NewCommentReport state that a report carries the given reason or this one |
| ReportUtil.NewCommentReport | src/util/report.util.js:68-76 | a pending report of type "comment" naming the comment and its blog |
| ReportUtil.ReportBlog | src/util/report.util.js:28-54 | a blog the user already reported gets no second report; otherwise the new report is appended |
| ReportUtil.ReportBlogTwice | src/util/report.util.js:31-36 | reporting the same blog twice adds at most one report: the user ends with max(1, before) reports of it |
| ReportUtil.ReportComment | src/util/report.util.js:57-84 | a comment the user already reported gets no second report; otherwise the new report is appended |
| ReportUtil.CommentGuardIgnoresType | src/util/report.util.js:60 | any earlier report by the user naming the comment, of any type, blocks a new comment report |
| ReportUtil.WithStatus | src/util/report.util.js:89-92 | the PATCH sets status and resolution time and keeps every other field |
| ReportUtil.UpdateReportStatus | src/util/report.util.js:87-100 | exactly that report is patched; a missing report is an error that writes nothing |
| UserUtil.Login | src/util/user.util.js:17-39 | failure messages per case; a login returns a stored user with that email and password |
| UserUtil.LoginDecision | src/util/user.util.js:19-31 | login succeeds exactly when the FIRST user with the email has the password |
| UserUtil.NewUser | src/util/user.util.js:52-57 | a new account has role "user", the default picture and the time of signup |
| UserUtil.Signup | src/util/user.util.js:42-66 | an email already taken is refused without writing; otherwise the new user is appended |
| UserUtil.SignupThenLogin | src/util/user.util.js:17-66 | after a signup, logging in with the same email and password yields the new account |
| UserUtil.SignupAddsNoAdmin | src/util/user.util.js:52-57 | signup never creates an administrator |
| UserUtil.ApplyPatch | src/util/user.util.js:71 | the given fields replace the stored ones; role and creation time are kept |
| UserUtil.PatchIdempotent | src/util/user.util.js:69-78 | applying the same profile patch twice equals applying it once |
| UserUtil.UpdateProfile | src/util/user.util.js:69-78 | exactly that user is patched; a missing user is an error |
| CategoryUtil.AddCategory | src/util/category.util.js:17-26 | success appends `{ name }` at the next id |
| CategoryUtil.UpdateCategory | src/util/category.util.js:29-38 | the category becomes `{ name }`; a missing one is an error |
| CategoryUtil.DeleteCategory | src/util/category.util.js:41-58 | refused while a blog's category text equals the id; otherwise exactly that category goes |
| CategoryUtil.InUseById | src/util/category.util.js:44-46 | some blog's category is the id written in decimal; DeleteCategory states that it refuses exactly then |
| CategoryUtil.DecimalChars | src/util/category.util.js:44 | the id in the query is made of digits and an optional minus |
| CategoryUtil.NamedCategoriesNeverBlock | src/util/category.util.js:44-49 | blogs filed under real names never block the delete, not even of their own category |
| Routes.AdminRoute | src/components/AdminRoute.js:10-14 | placeholder while loading; the outlet exactly for a logged-in admin; otherwise a redirect to "/" |
| Routes.ProtectedRoute | src/components/ProtectedRoute.js:10-14 | placeholder while loading; the outlet exactly for a logged-in user; otherwise a redirect to "/login" |
| Routes.AdminAdmitsOnlyAuthenticated | src/components/AdminRoute.js:14 | whoever passes the admin gate passes the user gate; a logged-in non-admin passes only the latter |
| Routes.AnonymousRedirects | src/components/ProtectedRoute.js:14 | with no session the admin gate goes to "/" and the user gate to "/login" |
| AuthContext.Session.constructor | src/context/AuthContext.js:9-12 | no user, not admin, loading |
| AuthContext.Session.Rehydrate | src/context/AuthContext.js:16-33 | a stored id that loads sets the user and the admin flag; one that fails is forgotten; loading ends |
| AuthContext.Session.Login | src/context/AuthContext.js:35-61 | a successful login sets user, admin flag and stored id; a failed one changes nothing |
| AuthContext.Session.Signup | src/context/AuthContext.js:63-92 | the new user becomes the session user; the admin flag is left as it was, so an admin keeps it for a plain account |
| AuthContext.Session.Logout | src/context/AuthContext.js:94-99 | user, admin flag and stored id are cleared |
| AuthContext.Session.UpdateProfile | src/context/AuthContext.js:101-112 | the session user is replaced by the patched record; the admin flag is not recomputed |
| SignupPage.AcceptedEmailShape | src/pages/Signup.js:33-41 | an accepted email is local@domain.tld with non-empty parts free of white space and '@', and one of the five TLDs |
| SignupPage.EmailOfShapeAccepted | src/pages/Signup.js:34 | every email of that shape is accepted |
| SignupPage.ValidEmail | src/pages/Signup.js:33-41 | the email pattern read from the end; AcceptedEmailShape and EmailOfShapeAccepted state that it accepts exactly local@domain.tld |
| SignupPage.Strength | src/pages/Signup.js:44-83 | the strength is at most 5, and 5 exactly when all five criteria hold |
| SignupPage.MeetsRequirements | src/pages/Signup.js:71-75 | the four criteria the requirements error and the submit gate use; RequirementsMeanStrong and LowercaseNotRequired state how it relates to the strength |
| SignupPage.StrengthLabel | src/pages/Signup.js:85-92 | the label is "Strong" exactly from four criteria on |
| SignupPage.RequirementsMeanStrong | src/pages/Signup.js:85-92 | a password that meets the submit requirements is labelled "Strong" |
| SignupPage.LowercaseNotRequired | src/pages/Signup.js:108 | a password with no lowercase letter meets the submit requirements |
| SignupPage.ConfirmError | src/pages/Signup.js:94-101 | the confirmation error is empty exactly when the two passwords are equal |
| SignupPage.SignupForm.constructor | src/pages/Signup.js:8-29 | every field empty, no error shown, strength 0, no indicator lit, not loading, no navigation yet |
| SignupPage.SignupForm.SetName | src/pages/Signup.js:144 | the name field takes the typed text |
| SignupPage.SignupForm.SetEmail | src/pages/Signup.js:156 | the email field takes the typed text; the error waits for the blur |
| SignupPage.SignupForm.BlurEmail | src/pages/Signup.js:157 | leaving the email field shows the format error exactly when the email is not accepted |
| SignupPage.SignupForm.SetPassword | src/pages/Signup.js:176 | only the password, the indicators, the strength and the two password errors may change; a non-empty password gets current indicators and, with a non-empty confirmation, a recomputed mismatch error; an empty one leaves every indicator, the strength and both errors as they were |
| SignupPage.SignupForm.SetConfirmPassword | src/pages/Signup.js:254 | only the confirmation and what the effect writes may change; with both fields non-empty the mismatch error says whether they differ; with either empty that error is kept, and with an empty password the indicators are kept too |
| SignupPage.SignupForm.SubmitEnabled | src/pages/Signup.js:279 | the button is enabled when nothing is loading, no error is shown and the password is non-empty; EnabledPasswordPasses and Submit state what that guarantees |
| SignupPage.SignupForm.EnabledPasswordPasses | src/pages/Signup.js:279 | an enabled submit button over current indicators means the password meets the requirements, so handleSubmit's password check passes |
| SignupPage.SignupForm.PasswordEffect | src/pages/Signup.js:44-83 | the indicators and strength follow the current password; an empty password changes nothing |
| SignupPage.SignupForm.RateRequirements | src/pages/Signup.js:46-76 | on a non-empty password the five indicators, the count of those met and the requirements error all describe that password |
| SignupPage.SignupForm.Submit | src/pages/Signup.js:103-125 | signup is called exactly when the email, the four required criteria and the confirmation all pass; pressed while enabled with matching passwords, only the email decides; on success the user is signed in and the page goes to /profile |
| SignupPage.SignupForm.CheckFields | src/pages/Signup.js:103-110 | both errors are refreshed, and the result is true exactly when the email is accepted, the four flags hold and the passwords match |
| SignupPage.SignupForm.Register | src/pages/Signup.js:112-124 | the signup succeeds exactly when the store is reachable and the email is not taken; then the new user is signed in with the next id and the page goes to /profile, else nothing changes |
| Analytics.ReduceIsSum | src/pages/admin/Analytics.js:58-60 | the left fold from an accumulator is the accumulator plus the sum |
| Analytics.TotalIsSum | src/pages/admin/Analytics.js:58-60 | totals start at 0 and grow by each day's value |
| Analytics.SumPrepend | src/pages/admin/Analytics.js:58 | the sum of a day followed by others is that day's value plus theirs |
| Analytics.Total | src/pages/admin/Analytics.js:58-60 | each total (page views, unique visitors, new users) is the sum of that metric over the days |
| Analytics.Series | src/pages/admin/Analytics.js:63-91 | one point per day, aligned with the date labels |
| Analytics.Labels | src/pages/admin/Analytics.js:63 | one label per day |
| Analytics.CountDay | src/pages/admin/Analytics.js:97-99 | the inner loop adds one day's ids to the tallies |
| Analytics.TallyStep | src/pages/admin/Analytics.js:98 | `counts[id] = (counts[id] \|\| 0) + 1` adds one occurrence |
| Analytics.AllIdsStep | src/pages/admin/Analytics.js:96-100 | the ids of one more day extend the ids seen so far |
| Analytics.CountIds | src/pages/admin/Analytics.js:95-100 | every id that occurs has a count, and the count is its number of occurrences over all days |
| Analytics.Entries | src/pages/admin/Analytics.js:102 | `Object.entries` lists each counted id once with its count, ids ascending |
| Analytics.Rank | src/pages/admin/Analytics.js:102-104 | the top list has min(5, entries) rows, counts non-increasing, distinct ids, every row a counted id with its count, no id left out beats one listed, and with fewer than five rows every counted id is listed |
| Analytics.TopListed | src/pages/admin/Analytics.js:95-104 | the same, stated against the ids of all days: at most five rows, each an id with its number of listings, none left out that beats one listed, and every id listed when fewer than five rows |
| Analytics.RankedIds | src/pages/admin/Analytics.js:95-104 | a ranking stated over the counts holds over the ids themselves, each count being that id's number of listings, and a short list still lists every id |
| Analytics.AscendingKeys | src/pages/admin/Analytics.js:102 | sorting the distinct keys gives every counted id once, strictly ascending |
| Analytics.Tabulate | src/pages/admin/Analytics.js:102 | each key is paired with its count |
| Analytics.PermutedEnumerates | src/pages/admin/Analytics.js:103 | sorting the entries keeps them an enumeration of the counts |
| Analytics.Dominates | src/pages/admin/Analytics.js:103-104 | in the sorted entries, an id outside the first n counts no more than any of the first n |
| Analytics.RankFacts | src/pages/admin/Analytics.js:103-104 | the first five sorted entries have the properties of Rank, including that a list shorter than five holds every counted id |
| Analytics.PrefixFacts | src/pages/admin/Analytics.js:104 | any prefix of the sorted entries has those properties |
| Analytics.Take | src/pages/admin/Analytics.js:104 | `slice(0, n)` is the prefix of length min(n, length) |
| Analytics.DistinctPermuted | src/pages/admin/Analytics.js:103 | a permutation of distinct items is distinct |
| Analytics.Twice | src/pages/admin/Analytics.js:103 | an item counted twice sits at two positions |
| Analytics.BlogTitleOfId | src/pages/admin/Analytics.js:105-111 | an id's row shows the blog's title, or "Blog <id>" when the blog is gone |
| Analytics.DestinationNameOfId | src/pages/admin/Analytics.js:125-131 | an id's row shows the destination's name, or "Destination <id>" |
| Analytics.BlogTitle | src/pages/admin/Analytics.js:105-111 | the title lookup behind the top-blogs table; what it shows for an id is stated by BlogTitleOfId |
| Analytics.DestinationName | src/pages/admin/Analytics.js:125-131 | the name lookup behind the top-destinations table; what it shows for an id is stated by DestinationNameOfId |
| Analytics.BlogRows | src/pages/admin/Analytics.js:102-112 | one table row per ranked id, in rank order: its id in decimal, its view count, and the blog's title, or "Blog <id>" when the blog is gone |
| Analytics.DestinationRows | src/pages/admin/Analytics.js:122-132 | one table row per ranked id, in rank order: its id in decimal, its view count, and the destination's name, or "Destination <id>" when it is gone |
| ManageReportsPage.UserName | src/pages/admin/ManageReports.js:64-67 | the reporter's name when the user is known, else "User <id>" |
| ManageReportsPage.Visible | src/pages/admin/ManageReports.js:252 | a tab shows exactly the reports of its status, in list order |
| ManageReportsPage.TabCount | src/pages/admin/ManageReports.js:317-319 | a tab label's count is the number of reports that tab shows |
| ManageReportsPage.TabsPartition | src/pages/admin/ManageReports.js:252 | a tab shows exactly its reports in order; its label count is its length; the three counts add up to the total when every status is known |
| ManageReportsPage.PagePatch | src/pages/admin/ManageReports.js:118-127 | the local update sets status, time and action and keeps every other field |
| ManageReportsPage.Settled | src/pages/admin/ManageReports.js:118-128 | the `reports.map` after a decision: same length and ids, every other report unchanged, and the report with the id gets the new status and time; SettledIsReplace equates it with the store's patch |
| ManageReportsPage.SettledIsReplace | src/pages/admin/ManageReports.js:118-128 | the page's local update equals the store's patch of that report |
| ManageReportsPage.SettleMovesTab | src/pages/admin/ManageReports.js:317-319 | settling a report moves it from its tab to the new one and leaves other counts unchanged |
| ManageReportsPage.TargetOf | src/pages/admin/ManageReports.js:183-199 | the content deleted is the blog for a blog report with a truthy blog id, else the comment for a comment report with a truthy comment id, else nothing |
| ManageReportsPage.DeleteEach | src/pages/admin/ManageReports.js:189-191 | the `for...of` loop deletes exactly the listed comments |
| ManageReportsPage.ReportsPage.constructor | src/pages/admin/ManageReports.js:29-36 | empty lists, no report selected, the pending tab |
| ManageReportsPage.ReportsPage.FetchReports | src/pages/admin/ManageReports.js:43-53 | the reports newest first |
| ManageReportsPage.ReportsPage.FetchUsers | src/pages/admin/ManageReports.js:55-62 | the users as stored |
| ManageReportsPage.ReportsPage.Settle | src/pages/admin/ManageReports.js:109-179 | the report is patched in the store, the list and the open drawer; a missing report changes nothing |
| ManageReportsPage.ReportsPage.Approve | src/pages/admin/ManageReports.js:109-143 | the report becomes "resolved" with the resolution time in store and list, and in the drawer when it shows that report |
| ManageReportsPage.ReportsPage.Reject | src/pages/admin/ManageReports.js:145-179 | the report becomes "rejected" with the resolution time in store and list, and in the drawer when it shows that report |
| ManageReportsPage.ReportsPage.Decide | src/pages/admin/ManageReports.js:288-297 | the Approve and Reject buttons act only on a pending report; then it is resolved or rejected as Approve or Reject says, else nothing changes |
| ManageReportsPage.OffersDecision | src/pages/admin/ManageReports.js:292 | the Approve and Reject buttons are shown for pending reports only; Decide and DecidedOnce state what follows from it |
| ManageReportsPage.DecidedOnce | src/pages/admin/ManageReports.js:331-345 | once decided, a report no longer offers Approve or Reject, and every other report keeps its buttons |
| ManageReportsPage.ReportsPage.DeleteReportedContent | src/pages/admin/ManageReports.js:181-237 | a blog goes with all its comments, a comment with its direct replies; then the report is resolved with action "deleted"; a failed step stops the rest |
| ManageReportsPage.DeleteTarget | src/pages/admin/ManageReports.js:183-204 | a reported blog is deleted with every comment on it, a reported comment with its direct replies; a missing target leaves the store as it was |
| ManageReportsPage.ReplyCascadeOneLevel | src/pages/admin/ManageReports.js:199-202 | only direct replies go: a reply to a reply survives |
| ManageBlogsPage.Edit | src/pages/admin/ManageBlogs.js:70 | `{ ...blog, status }` or `{ ...blog, category }` changes that one field |
| ManageBlogsPage.Edited | src/pages/admin/ManageBlogs.js:70 | the `prev.map` after an edit: same length and ids, every other blog unchanged, the edited one keeps its title; EditedIsReplace equates it with the store's patch |
| ManageBlogsPage.EditedIsReplace | src/pages/admin/ManageBlogs.js:70 | the local map equals the store's patch of that blog |
| ManageBlogsPage.ShownExactly | src/pages/admin/ManageBlogs.js:128-132 | exactly the blogs passing both filters, in order; empty filters show all |
| ManageBlogsPage.Shown | src/pages/admin/ManageBlogs.js:128-132 | `filteredBlogs`; ShownExactly states that it holds exactly the blogs passing both filters, in order |
| ManageBlogsPage.ApproveLeavesPending | src/pages/admin/ManageBlogs.js:67-80 | approving takes that blog, and only it, out of the pending view |
| ManageBlogsPage.BlogsPage.constructor | src/pages/admin/ManageBlogs.js:28-35 | empty lists, no drawer, no filters |
| ManageBlogsPage.BlogsPage.Fetch | src/pages/admin/ManageBlogs.js:37-55 | the blogs newest first, then the categories |
| ManageBlogsPage.BlogsPage.Patch | src/pages/admin/ManageBlogs.js:67-125 | one field of that blog changes in store, list and drawer; a missing blog changes nothing |
| ManageBlogsPage.BlogsPage.Approve | src/pages/admin/ManageBlogs.js:67-80 | that blog's status becomes "approved" in store and list, and in the drawer when it shows that blog |
| ManageBlogsPage.BlogsPage.Reject | src/pages/admin/ManageBlogs.js:82-95 | that blog's status becomes "rejected" in store and list, and in the drawer when it shows that blog |
| ManageBlogsPage.BlogsPage.ChangeCategory | src/pages/admin/ManageBlogs.js:112-125 | that blog's category becomes the chosen name in store and list, and in the drawer when it shows that blog |
| ManageBlogsPage.BlogsPage.Decide | src/pages/admin/ManageBlogs.js:190-203 | the Approve and Reject buttons act only on a pending blog; then it is approved or rejected as Approve or Reject says, else nothing changes |
| ManageBlogsPage.OffersDecision | src/pages/admin/ManageBlogs.js:194 | the Approve and Reject buttons are shown for pending blogs only; Decide and DecidedOnce state what follows from it |
| ManageBlogsPage.DecidedOnce | src/pages/admin/ManageBlogs.js:267-280 | once decided, a blog no longer offers Approve or Reject, and every other blog keeps its buttons |
| ManageBlogsPage.BlogsPage.Delete | src/pages/admin/ManageBlogs.js:97-110 | exactly that blog leaves store and list; its comments stay |
| ManageCategoriesPage.GuardsDisagree | src/pages/admin/ManageCategories.js:54-62 | one store where the page refuses a delete that `categoryUtil` would allow |
| ManageCategoriesPage.InUseByName | src/pages/admin/ManageCategories.js:54-58 | some blog's category is the category's name; GuardsDisagree shows where it and CategoryUtil.InUseById part ways |
| ManageCategoriesPage.CategoriesPage.constructor | src/pages/admin/ManageCategories.js:10-15 | an empty list and a closed modal |
| ManageCategoriesPage.CategoriesPage.FetchCategories | src/pages/admin/ManageCategories.js:21-31 | the categories as stored |
| ManageCategoriesPage.CategoriesPage.ShowModal | src/pages/admin/ManageCategories.js:33-43 | opens the modal with the category's name, or empty for a new one |
| ManageCategoriesPage.CategoriesPage.Cancel | src/pages/admin/ManageCategories.js:45-49 | closes the modal, clears the category being edited, resets the form |
| ManageCategoriesPage.CategoriesPage.Delete | src/pages/admin/ManageCategories.js:51-70 | refused while a blog carries the category's name; otherwise exactly that category goes from store and list |
| ManageCategoriesPage.CategoriesPage.Submit | src/pages/admin/ManageCategories.js:72-88 | a PUT over the category being edited or a POST of a new one, then the modal closes and the list is reloaded |
| ManageDestinationsPage.WithImage | src/pages/admin/ManageDestinations.js:121-124 | the saved record is exactly the form's six fields plus the image |
| ManageDestinationsPage.PrefillRoundTrip | src/pages/admin/ManageDestinations.js:60-78 | the pre-filled form plus the image give back the record |
| ManageDestinationsPage.DestinationsPage.constructor | src/pages/admin/ManageDestinations.js:35-42 | an empty list, a closed modal and no image |
| ManageDestinationsPage.DestinationsPage.FetchDestinations | src/pages/admin/ManageDestinations.js:48-58 | the destinations as stored |
| ManageDestinationsPage.DestinationsPage.ShowModal | src/pages/admin/ManageDestinations.js:60-79 | an existing destination fills all six fields and the image; a new one clears them |
| ManageDestinationsPage.DestinationsPage.Cancel | src/pages/admin/ManageDestinations.js:81-85 | closes the modal, clears the destination being edited, resets the form, keeps the image |
| ManageDestinationsPage.DestinationsPage.ImageLoaded | src/pages/admin/ManageDestinations.js:106-109 | the file's data URL becomes the image and the preview |
| ManageDestinationsPage.DestinationsPage.Delete | src/pages/admin/ManageDestinations.js:87-96 | exactly that destination leaves store and list; a missing one changes nothing |
| ManageDestinationsPage.DestinationsPage.Submit | src/pages/admin/ManageDestinations.js:114-140 | no image: an error and no write; else a full replace of the one being edited or a new record, then the modal closes and the list reloads |
| ManageUsersPage.FilteredUsersExactly | src/pages/admin/ManageUsers.js:44-48 | exactly the users whose name or email contains the text ignoring case, in order; empty text keeps all |
| ManageUsersPage.FilteredUsers | src/pages/admin/ManageUsers.js:44-48 | `filteredUsers`; FilteredUsersExactly states that it holds exactly the users whose name or e-mail contains the search text, in order |
| ManageUsersPage.UsersPage.constructor | src/pages/admin/ManageUsers.js:12-15 | an empty list and empty search |
| ManageUsersPage.UsersPage.FetchUsers | src/pages/admin/ManageUsers.js:21-31 | the users as stored |
| ManageUsersPage.UsersPage.Search | src/pages/admin/ManageUsers.js:109-115 | the search text is what was typed |
| ManageUsersPage.UsersPage.DeleteUser | src/pages/admin/ManageUsers.js:33-42 | exactly that user leaves store and list; a failed delete leaves both |
| ManageUsersPage.UsersPage.ConfirmDelete | src/pages/admin/ManageUsers.js:86-93 | nothing is sent for an administrator's row |
| ManageUsersPage.DeleteEnabled | src/pages/admin/ManageUsers.js:91-93 | the delete button is enabled for every role but "admin"; ConfirmDelete states that nothing is sent otherwise |
| SingleBlogPage.BlogAtRoute | src/pages/SingleBlog.js:35 | the blog whose id, written in decimal, is the route text; none when no id matches |
| SingleBlogPage.NotAtRoute | src/pages/SingleBlog.js:35 | route text that does not parse back to a stored id matches no blog |
| SingleBlogPage.PageComment | src/pages/SingleBlog.js:76-83 | the posted comment has the route's blog id, the user's id and name, the untrimmed text, a picture, and no parent |
| SingleBlogPage.ParagraphsOfContent | src/pages/SingleBlog.js:129 | line breaks + 1 paragraphs, none holding a line break, joining back to the content |
| SingleBlogPage.Paragraphs | src/pages/SingleBlog.js:129 | `content.split("\n")`; ParagraphsOfContent states its count, that no piece holds a line break, and that joining gives the content |
| SingleBlogPage.BlogPage.constructor | src/pages/SingleBlog.js:20-27 | no blog, no comments, empty input |
| SingleBlogPage.BlogPage.Fetch | src/pages/SingleBlog.js:31-58 | the blog the route names, then its comments newest first; a missing blog sets nothing |
| SingleBlogPage.BlogPage.Type | src/pages/SingleBlog.js:25 | the input holds what was typed |
| SingleBlogPage.BlogPage.Submit | src/pages/SingleBlog.js:60-95 | no user or blank text: no post; else the comment is stored and put in front of the list and the input cleared; a failure changes nothing |
| SingleBlogPage.BlogPage.Post | src/pages/SingleBlog.js:75-87 | the comment goes to the store under the next id, on the blog the route id parses to, and to the front of the list; the input is cleared |
| SingleBlogPage.PostComment | src/pages/SingleBlog.js:84 | the store appends the comment under the next id and stays valid |
| CreateBlogPage.WithField | src/pages/CreateBlog.js:42-45 | the named field takes the value and the other fields are kept |
| CreateBlogPage.WithFieldCommutes | src/pages/CreateBlog.js:44 | edits to two fields commute; a second edit of one field replaces the first |
| CreateBlogPage.FieldsDetermine | src/pages/CreateBlog.js:15-20 | the four fields make up the whole form |
| CreateBlogPage.BlankTextAccepted | src/pages/CreateBlog.js:62 | a white-space title or content passes the guard |
| CreateBlogPage.Complete | src/pages/CreateBlog.js:62 | the four required fields are non-empty; BlankTextAccepted and Submit state what it lets through and what it stops |
| CreateBlogPage.PublishedBlog | src/pages/CreateBlog.js:70-77 | the posted blog is the form, the author's id and name, "approved", 0 likes and the time |
| CreateBlogPage.CreateBlogForm.constructor | src/pages/CreateBlog.js:12-23 | an empty form and no preview |
| CreateBlogPage.CreateBlogForm.FetchCategories | src/pages/CreateBlog.js:26-37 | the categories as stored |
| CreateBlogPage.CreateBlogForm.HandleChange | src/pages/CreateBlog.js:42-45 | only the named field changes |
| CreateBlogPage.CreateBlogForm.ImageLoaded | src/pages/CreateBlog.js:51-54 | the data URL becomes the preview and the form's image |
| CreateBlogPage.CreateBlogForm.Submit | src/pages/CreateBlog.js:59-88 | an empty field posts nothing; else the blog is appended and the page goes to "/blogs" |
| BlogsPage.FilteredBlogsExactly | src/pages/Blogs.js:34-40 | exactly the blogs whose title or content contains the term and whose category matches, in order; an empty term lets the category decide |
| BlogsPage.FilteredBlogs | src/pages/Blogs.js:34-40 | `filteredBlogs`; FilteredBlogsExactly states that it holds exactly the blogs matching the search and the category, in order |
| BlogsPage.Excerpt | src/pages/Blogs.js:100 | a prefix of the content of length min(200, length) |
| BlogsPage.ExcerptFacts | src/pages/Blogs.js:100 | short content is shown whole; an excerpt of an excerpt is the excerpt |
| DestinationsPage.FilteredDestinationsExactly | src/pages/Destinations.js:27-31 | exactly the destinations whose name or country contains the term, in order; an empty term keeps all |
| DestinationsPage.FilteredDestinations | src/pages/Destinations.js:27-31 | `filteredDestinations`; FilteredDestinationsExactly states that it holds exactly the destinations whose name or country contains the search text, in order |
| DestinationsPage.OnlyNameAndCountry | src/pages/Destinations.js:27-31 | the other fields never affect the search |
| DestinationsPage.SearchIdempotent | src/pages/Destinations.js:27-31 | searching the result again with the same term changes nothing |

## Left out

- Rendering: JSX, toasts, chart and table widgets, colours, the strength-meter width, column sorters and `toLocaleDateString` are not modelled.
- Browser form validation: the `required` attributes on inputs are left out; only the handlers' own checks are modelled.
- `handleImageChange` and `uploadProfilePicture`: the FileReader is left out; only the data URL that arrives at its end is modelled (`ImageLoaded`).
- Opening the ManageReports drawer (`showDrawer`) and the 2-second `setTimeout` that closes it are left out; the report it shows is the page's `selected`, which the handlers keep current.
- A handler that reads `new Date()` twice is modelled with one `now` for both readings.
- Query strings are matched on the decoded values: URL encoding is left out.
- `Object.entries` on non-index keys (negative ids) is left out; ids are enumerated ascending.
- Analytics.Rank: ties between equal counts are not stated in the contract.
- A network failure between two requests of one handler is left out: `reachable` decides the whole handler. Deterministic 404s in the middle of a handler are modelled.
- What json-server does to dependent rows on DELETE is left out: only the row named is removed.
- Store.Db: one `nextId` is shared by every collection and only grows, so an id is never given out twice. json-server gives each collection its own largest id plus one, so deleting the newest row of a collection lets its id be given out again, and ids of different collections overlap. The model does not capture that reuse or overlap.
- CommentUtil.BlogComments: the query `parentId=null` is read as "the comment has no parent" (the field absent or null). A server that compared the text "null" with the stored value is not modelled. SingleBlogPage.BlogAtRoute compares route text, which is a different matter.
- `toLowerCase` is modelled on ASCII letters only; other characters are kept as they are.
- SignupPage.Strength: the length criterion counts characters (Unicode scalar values), where `password.length` counts UTF-16 code units, so a password with characters outside the Basic Multilingual Plane is shorter in the model: "😀😀Aa1!" has length 8 in the browser and 6 here.
- SignupPage.MeetsRequirements: the same length criterion in characters, not UTF-16 code units; such a password can meet the requirements in the browser and fail them here.
- SignupPage.SignupForm.RateRequirements: `hasMinLength` is set from the length in characters, not UTF-16 code units.
- BlogsPage.Excerpt: the cut after 200 counts characters, not UTF-16 code units, so on text outside the Basic Multilingual Plane it falls later than `substring(0, 200)`, which may also split a surrogate pair.
- `loading` and `submitting` flags that only switch spinners on and off are left out, except the session's `loading`, which the route gates read.
- Fetch-on-mount effects run in the order written; concurrent requests are left out.
- `getAllBlogs`, `getBlogById`, `updateBlog`, `deleteBlog`, `getAllReports`, `getUserById`, `getAllCategories` and destinationUtil are plain request wrappers, not used by the modelled pages.
