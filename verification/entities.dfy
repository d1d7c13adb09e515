/** The rows of the Echos content store: one datatype per entity class of the
    domain layer. Navigation properties are not fields here; they are the
    foreign-key ids, resolved against the store by the queries that need them. */
module Entities {
  import opened Wrappers

  /** DateTime values (UTC), as an opaque tick count supplied by the caller. */
  type Time = int

  /** Identity user keys are strings (GUIDs). */
  type UserId = string

  /** The three-tier role enumeration. */
  datatype UserRole = Member | Leader | Admin

  /** `role.ToString()`: the name of the Identity role matching an enum value. */
  function RoleName(role: UserRole): (name: string)
    ensures name in {"Member", "Leader", "Admin"}
  {
    match role
    case Member => "Member"
    case Leader => "Leader"
    case Admin => "Admin"
  }

  /** Distinct roles have distinct Identity role names, so a role set holding
      one role's name determines the role. */
  lemma {:induction false} RoleNameInjective(a: UserRole, b: UserRole)
    ensures RoleName(a) == RoleName(b) <==> a == b
  {
    if a != b {
      match a
      case Member => assert RoleName(a)[0] == 'M';
      case Leader => assert RoleName(a)[0] == 'L';
      case Admin => assert RoleName(a)[0] == 'A';
    }
  }

  /** The importance of a post: an enumeration whose members play no part in
      any rule of the core, so it is kept abstract. */
  type ImportanceLevel(==, !new)

  datatype Post = Post(
    id: int,
    title: string,
    content: string,
    authorId: UserId,
    createdAt: Time,
    updatedAt: Option<Time>,
    // Leader-only fields
    isRead: bool,
    importance: Option<ImportanceLevel>)

  datatype Like = Like(id: int, postId: int, userId: UserId, createdAt: Time)

  datatype Comment = Comment(
    id: int,
    postId: int,
    authorId: UserId,
    content: string,
    createdAt: Time,
    updatedAt: Option<Time>)

  datatype Tag = Tag(id: int, name: string, color: string, createdAt: Time)

  /** The link between a post and a tag, keyed by (postId, tagId). */
  datatype PostTag = PostTag(postId: int, tagId: int, createdAt: Time)

  /** An Identity user with the application's Role column. `roleNames` is the
      set of Identity role names the user is a member of (the user-role table). */
  datatype User = User(
    id: UserId,
    userName: string,
    email: string,
    emailConfirmed: bool,
    role: UserRole,
    createdAt: Time,
    roleNames: set<string>)

  // Key selectors, used wherever a table is searched or checked by its key.
  function UserKey(u: User): UserId { u.id }
  function PostKey(p: Post): int { p.id }
  function LikeKey(l: Like): int { l.id }
  function LikePair(l: Like): (int, UserId) { (l.postId, l.userId) }
  function CommentKey(c: Comment): int { c.id }
  function TagKey(t: Tag): int { t.id }
  function PostTagKey(pt: PostTag): (int, int) { (pt.postId, pt.tagId) }
}
