/** The records of the JSON store, one datatype per collection. A record's
    `id` is not part of these: the store keeps it beside the record in a
    `Store.Row`. Timestamps (ISO strings in the store) are opaque integers
    that order the same way. */
module Records {
  import opened Common

  datatype User = User(
    name: string,
    email: string,
    password: string,      // kept and compared as plain text
    role: string,          // "user" or "admin"
    profilePic: string,
    bio: Option<string>,
    createdAt: int)

  datatype Blog = Blog(
    title: string,
    content: string,
    category: string,      // a category NAME, not a category id
    imageUrl: string,
    authorId: int,
    authorName: string,
    status: string,        // "approved", "pending" or "rejected"
    likes: Option<int>,    // counter kept beside the like rows; may be missing
    createdAt: int)

  /** `parentId` is `None` for a top-level comment and the parent's id for a reply. */
  datatype Comment = Comment(
    blogId: int,
    parentId: Option<int>,
    userId: int,
    userName: string,
    userProfilePic: Option<string>,
    content: string,
    likes: Option<int>,
    createdAt: int)

  /** A row of `likes` (target = blogId) or of `commentLikes` (target = commentId). */
  datatype Like = Like(userId: int, targetId: int, createdAt: int)

  /** `kind` is the record's `type` field: "blog" or "comment". */
  datatype Report = Report(
    userId: int,
    kind: string,
    blogId: Option<int>,
    commentId: Option<int>,
    reason: string,
    status: string,        // "pending", "resolved" or "rejected"
    createdAt: int,
    resolvedAt: Option<int>,
    actionTaken: Option<string>)

  datatype Category = Category(name: string)

  datatype Destination = Destination(
    name: string,
    country: string,
    description: string,
    climate: string,
    bestTimeToVisit: string,
    attractions: seq<string>,
    imageUrl: string)

  const ADMIN := "admin"
  const DEFAULT_PROFILE_PIC := "/default-profile.jpg"
  const APPROVED := "approved"
  const PENDING := "pending"
  const REJECTED := "rejected"
  const RESOLVED := "resolved"
}
