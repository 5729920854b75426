/** The persisted entities (posts and users), the moderation status, roles and
    the authenticated session that the route handlers receive. */
module Domain {
  import opened Wrappers

  type PostId = string
  type UserId = string

  /** The moderation state of a post. */
  datatype Status = Pending | Approved | Rejected

  /** The wire name of a status, as stored and as sent in request bodies. */
  function StatusName(s: Status): string {
    match s
    case Pending => "PENDING"
    case Approved => "APPROVED"
    case Rejected => "REJECTED"
  }

  /** Reads a status name; any other text is not a status. */
  function ParseStatus(t: string): (r: Option<Status>)
    ensures r.Some? ==> StatusName(r.value) == t
    ensures r.None? ==> forall s: Status :: StatusName(s) != t
  {
    if t == "PENDING" then Some(Pending)
    else if t == "APPROVED" then Some(Approved)
    else if t == "REJECTED" then Some(Rejected)
    else None
  }

  datatype Role = UserRole | AdminRole

  function RoleName(r: Role): string {
    match r
    case UserRole => "USER"
    case AdminRole => "ADMIN"
  }

  /** A row of the post table. */
  datatype Post = Post(
    id: PostId,
    title: string,
    content: string,
    status: Status,
    authorId: UserId,
    createdAt: int,
    updatedAt: int)

  /** A row of the user table; `passwordHash` is whatever the hashing library produced. */
  datatype User = User(
    id: UserId,
    name: string,
    email: string,
    passwordHash: string,
    role: Role)

  /** The session the authentication layer attaches to a request. */
  datatype Session = Session(userId: UserId, role: string)

  /** A string field of a request is usable when present and non-empty: the
      JavaScript truthiness that the tests `!field` negate. */
  predicate Given(f: Option<string>) {
    f.Some? && f.value != ""
  }

  /** `session && session.user.role === 'ADMIN'`: the gate of every admin route. */
  predicate IsAdminSession(session: Option<Session>) {
    session.Some? && session.value.role == "ADMIN"
  }
}
