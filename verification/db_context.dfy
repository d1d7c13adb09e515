/** The Echos database: its tables, the keys, unique index and delete
    behaviours configured for them, and the store object the services update. */
module Data {
  import opened Wrappers
  import opened Entities
  import opened Queries

  /** The exceptions a write can raise: the database's, when a write would
      break a foreign key, and Identity's, when a user is added to a role the
      role table does not hold. */
  datatype StoreError = ForeignKeyViolation | RoleNotFound(roleName: string)

  /** A snapshot of every table. `roleNames` is the Identity role table. */
  datatype Tables = Tables(
    users: seq<User>,
    posts: seq<Post>,
    tags: seq<Tag>,
    postTags: seq<PostTag>,
    likes: seq<Like>,
    comments: seq<Comment>,
    roleNames: set<string>)

  function UserIds(users: seq<User>): set<UserId> { Keys(users, UserKey) }
  function PostIds(posts: seq<Post>): set<int> { Keys(posts, PostKey) }
  function TagIds(tags: seq<Tag>): set<int> { Keys(tags, TagKey) }

  /** Primary keys, the composite PostTag key and the unique (PostId, UserId)
      index on Like. */
  ghost predicate KeysHold(t: Tables) {
    && KeysUnique(t.users, UserKey)
    && KeysUnique(t.posts, PostKey)
    && KeysUnique(t.tags, TagKey)
    && KeysUnique(t.postTags, PostTagKey)
    && KeysUnique(t.likes, LikeKey)
    && KeysUnique(t.likes, LikePair)
    && KeysUnique(t.comments, CommentKey)
  }

  /** Every foreign key names an existing row; a user's role memberships name
      roles of the role table. */
  ghost predicate ReferencesHold(t: Tables) {
    && (forall u :: u in t.users ==> u.roleNames <= t.roleNames)
    && (forall p :: p in t.posts ==> p.authorId in UserIds(t.users))
    && (forall pt :: pt in t.postTags ==> pt.postId in PostIds(t.posts) && pt.tagId in TagIds(t.tags))
    && (forall l :: l in t.likes ==> l.postId in PostIds(t.posts) && l.userId in UserIds(t.users))
    && (forall c :: c in t.comments ==> c.postId in PostIds(t.posts) && c.authorId in UserIds(t.users))
  }

  ghost predicate Consistent(t: Tables) {
    KeysHold(t) && ReferencesHold(t)
  }

  // ---------------------------------------------------------------------------
  // Delete behaviours

  /** Deleting a post: its PostTags, Likes and Comments are deleted with it
      (all three edges are Cascade); no other table is touched. */
  function DeletePostCascade(t: Tables, postId: int): (r: Tables)
    ensures postId !in PostIds(r.posts)
    ensures forall p :: p in r.posts <==> p in t.posts && p.id != postId
    ensures forall pt :: pt in r.postTags <==> pt in t.postTags && pt.postId != postId
    ensures forall l :: l in r.likes <==> l in t.likes && l.postId != postId
    ensures forall c :: c in r.comments <==> c in t.comments && c.postId != postId
    ensures r.users == t.users && r.tags == t.tags && r.roleNames == t.roleNames
  {
    t.(posts := Filter(t.posts, (p: Post) => p.id != postId),
       postTags := Filter(t.postTags, (pt: PostTag) => pt.postId != postId),
       likes := Filter(t.likes, (l: Like) => l.postId != postId),
       comments := Filter(t.comments, (c: Comment) => c.postId != postId))
  }

  /** Deleting a tag: the PostTags that reference it are deleted (Cascade);
      nothing else changes. */
  function DeleteTagCascade(t: Tables, tagId: int): (r: Tables)
    ensures tagId !in TagIds(r.tags)
    ensures forall g :: g in r.tags <==> g in t.tags && g.id != tagId
    ensures forall pt :: pt in r.postTags <==> pt in t.postTags && pt.tagId != tagId
    ensures r.users == t.users && r.posts == t.posts && r.likes == t.likes
    ensures r.comments == t.comments && r.roleNames == t.roleNames
  {
    t.(tags := Filter(t.tags, (g: Tag) => g.id != tagId),
       postTags := Filter(t.postTags, (pt: PostTag) => pt.tagId != tagId))
  }

  /** The ids of the posts a user authored. */
  function AuthoredPostIds(t: Tables, userId: UserId): set<int> {
    set p | p in t.posts && p.authorId == userId :: p.id
  }

  /** Deleting a user: the posts the user authored follow (Cascade), and through
      them their PostTags, Likes and Comments. The Like.User and Comment.Author
      edges are NoAction: no row is deleted because of them. */
  function DeleteUserCascade(t: Tables, userId: UserId): (r: Tables)
    ensures userId !in UserIds(r.users)
    ensures forall u :: u in r.users <==> u in t.users && u.id != userId
    ensures forall p :: p in r.posts <==> p in t.posts && p.authorId != userId
    ensures forall pt :: pt in r.postTags <==> pt in t.postTags && pt.postId !in AuthoredPostIds(t, userId)
    ensures forall l :: l in r.likes <==> l in t.likes && l.postId !in AuthoredPostIds(t, userId)
    ensures forall c :: c in r.comments <==> c in t.comments && c.postId !in AuthoredPostIds(t, userId)
    ensures r.tags == t.tags && r.roleNames == t.roleNames
  {
    var authored := AuthoredPostIds(t, userId);
    t.(users := Filter(t.users, (u: User) => u.id != userId),
       posts := Filter(t.posts, (p: Post) => p.authorId != userId),
       postTags := Filter(t.postTags, (pt: PostTag) => pt.postId !in authored),
       likes := Filter(t.likes, (l: Like) => l.postId !in authored),
       comments := Filter(t.comments, (c: Comment) => c.postId !in authored))
  }

  /** Rows of the user that the post cascade leaves behind: a Like or Comment
      by the user on a post by someone else. Because their edge to the user is
      NoAction, the database refuses to delete the user while such rows exist. */
  predicate DeleteUserBlocked(t: Tables, userId: UserId) {
    var authored := AuthoredPostIds(t, userId);
    || (exists l :: l in t.likes && l.userId == userId && l.postId !in authored)
    || (exists c :: c in t.comments && c.authorId == userId && c.postId !in authored)
  }

  lemma DeletePostKeepsConsistency(t: Tables, postId: int)
    requires Consistent(t)
    ensures Consistent(DeletePostCascade(t, postId))
  {
    var r := DeletePostCascade(t, postId);
    FilterKeysUnique(t.posts, (p: Post) => p.id != postId, PostKey);
    FilterKeysUnique(t.postTags, (pt: PostTag) => pt.postId != postId, PostTagKey);
    FilterKeysUnique(t.likes, (l: Like) => l.postId != postId, LikeKey);
    FilterKeysUnique(t.likes, (l: Like) => l.postId != postId, LikePair);
    FilterKeysUnique(t.comments, (c: Comment) => c.postId != postId, CommentKey);
    forall k | k in PostIds(t.posts) && k != postId ensures k in PostIds(r.posts) {
      var p :| p in t.posts && p.id == k;
      assert p in r.posts;
    }
  }

  lemma DeleteTagKeepsConsistency(t: Tables, tagId: int)
    requires Consistent(t)
    ensures Consistent(DeleteTagCascade(t, tagId))
  {
    var r := DeleteTagCascade(t, tagId);
    FilterKeysUnique(t.tags, (g: Tag) => g.id != tagId, TagKey);
    FilterKeysUnique(t.postTags, (pt: PostTag) => pt.tagId != tagId, PostTagKey);
    forall k | k in TagIds(t.tags) && k != tagId ensures k in TagIds(r.tags) {
      var g :| g in t.tags && g.id == k;
      assert g in r.tags;
    }
  }

  lemma DeleteUserKeepsConsistency(t: Tables, userId: UserId)
    requires Consistent(t)
    requires !DeleteUserBlocked(t, userId)
    ensures Consistent(DeleteUserCascade(t, userId))
  {
    var r := DeleteUserCascade(t, userId);
    var authored := AuthoredPostIds(t, userId);
    FilterKeysUnique(t.users, (u: User) => u.id != userId, UserKey);
    FilterKeysUnique(t.posts, (p: Post) => p.authorId != userId, PostKey);
    FilterKeysUnique(t.postTags, (pt: PostTag) => pt.postId !in authored, PostTagKey);
    FilterKeysUnique(t.likes, (l: Like) => l.postId !in authored, LikeKey);
    FilterKeysUnique(t.likes, (l: Like) => l.postId !in authored, LikePair);
    FilterKeysUnique(t.comments, (c: Comment) => c.postId !in authored, CommentKey);
    forall k | k in PostIds(t.posts) && k !in authored ensures k in PostIds(r.posts) {
      var p :| p in t.posts && p.id == k;
      assert p.authorId != userId;
      assert p in r.posts;
    }
    forall k | k in UserIds(t.users) && k != userId ensures k in UserIds(r.users) {
      var u :| u in t.users && u.id == k;
      assert u in r.users;
    }
  }

  /** A blocked deletion would leave a Like or Comment pointing at no user:
      this is why the database refuses it. */
  lemma BlockedDeleteBreaksReferences(t: Tables, userId: UserId)
    requires DeleteUserBlocked(t, userId)
    ensures !ReferencesHold(DeleteUserCascade(t, userId))
  {
    var r := DeleteUserCascade(t, userId);
    var authored := AuthoredPostIds(t, userId);
    if l :| l in t.likes && l.userId == userId && l.postId !in authored {
      assert l in r.likes;
    } else {
      var c :| c in t.comments && c.authorId == userId && c.postId !in authored;
      assert c in r.comments;
    }
  }

  // ---------------------------------------------------------------------------
  // Identity lookups

  /** `FindByIdAsync`. */
  function UserById(users: seq<User>, id: UserId): (r: Option<User>)
    ensures r.Some? ==> r.value in users && r.value.id == id
    ensures r.None? <==> id !in UserIds(users)
  {
    FirstMatch(users, (u: User) => u.id == id)
  }

  /** Ordinal case folding, for the ASCII letters. */
  function FoldChar(c: char): char {
    if 'a' <= c <= 'z' then (c as int - 32) as char else c
  }

  /** The upper-case form of a string: same length, no lower-case ASCII letter left. */
  function FoldCase(s: string): (r: string)
    ensures |r| == |s|
    ensures forall i :: 0 <= i < |r| ==> !('a' <= r[i] <= 'z')
  {
    seq(|s|, i requires 0 <= i < |s| => FoldChar(s[i]))
  }

  /** `StringComparer.OrdinalIgnoreCase` equality. */
  predicate EqualsIgnoreCase(a: string, b: string) {
    FoldCase(a) == FoldCase(b)
  }

  /** Two characters that are equal, or an ASCII letter and its other case. */
  predicate SameLetterIgnoringCase(a: char, b: char) {
    a == b
    || ('A' <= a <= 'Z' && b as int == a as int + 32)
    || ('A' <= b <= 'Z' && a as int == b as int + 32)
  }

  /** Folding identifies exactly the two cases of an ASCII letter. */
  lemma FoldCharAgrees(a: char, b: char)
    ensures FoldChar(a) == FoldChar(b) <==> SameLetterIgnoringCase(a, b)
  {
  }

  /** Two strings are equal ignoring case exactly when they have the same length
      and agree, position by position, up to the case of ASCII letters. */
  lemma EqualsIgnoreCaseIff(a: string, b: string)
    ensures EqualsIgnoreCase(a, b) <==>
      |a| == |b| && forall i :: 0 <= i < |a| ==> SameLetterIgnoringCase(a[i], b[i])
  {
    var fa, fb := FoldCase(a), FoldCase(b);
    if EqualsIgnoreCase(a, b) {
      forall i | 0 <= i < |a| ensures SameLetterIgnoringCase(a[i], b[i]) {
        assert fa[i] == fb[i];
        FoldCharAgrees(a[i], b[i]);
      }
    }
    if |a| == |b| && forall i :: 0 <= i < |a| ==> SameLetterIgnoringCase(a[i], b[i]) {
      forall i | 0 <= i < |a| ensures fa[i] == fb[i] {
        FoldCharAgrees(a[i], b[i]);
      }
    }
  }

  /** Equality ignoring case is an equivalence, as a comparer must be. */
  lemma EqualsIgnoreCaseIsEquivalence(a: string, b: string, c: string)
    ensures EqualsIgnoreCase(a, a)
    ensures EqualsIgnoreCase(a, b) ==> EqualsIgnoreCase(b, a)
    ensures EqualsIgnoreCase(a, b) && EqualsIgnoreCase(b, c) ==> EqualsIgnoreCase(a, c)
  {
  }

  /** The message of the exception a refused write raises: EF Core's for a
      refused save, Identity's (naming the normalized role) for a missing role. */
  function StoreErrorMessage(e: StoreError): string {
    match e
    case ForeignKeyViolation => "An error occurred while saving the entity changes. See the inner exception for details."
    case RoleNotFound(name) => "Role " + FoldCase(name) + " does not exist."
  }

  /** `FindByEmailAsync`: Identity compares normalized (upper-cased) e-mails. */
  function UserByEmail(users: seq<User>, email: string): (r: Option<User>)
    ensures r.Some? ==> r.value in users && EqualsIgnoreCase(r.value.email, email)
    ensures r.None? <==> forall u :: u in users ==> !EqualsIgnoreCase(u.email, email)
  {
    FirstMatch(users, (u: User) => EqualsIgnoreCase(u.email, email))
  }

  function MaxIdLength(users: seq<User>): (n: nat)
    ensures forall u :: u in users ==> |u.id| <= n
  {
    if users == [] then 0
    else
      assert users == [users[0]] + users[1..];
      var n := MaxIdLength(users[1..]);
      if |users[0].id| <= n then n else |users[0].id|
  }

  /** The key Identity generates for a new user (a GUID there): one no user has. */
  function FreshUserId(users: seq<User>): (id: UserId)
    ensures id !in UserIds(users)
  {
    seq(MaxIdLength(users) + 1, _ => 'u')
  }

  /** Writing back a changed user row (`UpdateAsync` and the role-membership
      calls) keeps every key and reference intact. */
  lemma ReplaceUserKeepsConsistency(t: Tables, u: User)
    requires Consistent(t)
    requires u.id in UserIds(t.users)
    requires u.roleNames <= t.roleNames
    ensures Consistent(t.(users := ReplaceByKey(t.users, UserKey, u)))
  {
    ReplaceByKeyKeepsKeys(t.users, UserKey, u);
  }

  /** `FindAsync(id)` on the posts table. */
  function PostById(posts: seq<Post>, id: int): (r: Option<Post>)
    ensures r.Some? ==> r.value in posts && r.value.id == id
    ensures r.None? <==> id !in PostIds(posts)
  {
    FirstMatch(posts, (p: Post) => p.id == id)
  }

  /** Writing back a changed post whose key and author are those of a stored
      post keeps every key and reference intact. */
  lemma ReplacePostKeepsConsistency(t: Tables, p: Post)
    requires Consistent(t)
    requires p.id in PostIds(t.posts)
    requires p.authorId in UserIds(t.users)
    ensures Consistent(t.(posts := ReplaceByKey(t.posts, PostKey, p)))
  {
    ReplaceByKeyKeepsKeys(t.posts, PostKey, p);
  }

  // ---------------------------------------------------------------------------
  // The store

  /** The database context: one sequence per table, updated in place by the
      services. */
  class EchosDb {
    var users: seq<User>
    var posts: seq<Post>
    var tags: seq<Tag>
    var postTags: seq<PostTag>
    var likes: seq<Like>
    var comments: seq<Comment>
    var roleNames: set<string>

    function Snapshot(): Tables
      reads this
    {
      Tables(users, posts, tags, postTags, likes, comments, roleNames)
    }

    ghost predicate Valid()
      reads this
    {
      Consistent(Snapshot())
    }

    /** A freshly migrated, empty database. */
    constructor ()
      ensures Valid()
      ensures Snapshot() == Tables([], [], [], [], [], [], {})
    {
      users, posts, tags, postTags, likes, comments := [], [], [], [], [], [];
      roleNames := {};
    }

    /** `SaveChanges`: the tables take the new contents t. */
    method Store(t: Tables)
      requires Consistent(t)
      modifies this
      ensures Valid() && Snapshot() == t
    {
      users, posts, tags, postTags := t.users, t.posts, t.tags, t.postTags;
      likes, comments, roleNames := t.likes, t.comments, t.roleNames;
    }

    /** `Posts.Remove(post)` and `SaveChanges`: the post goes, and the
        configured cascades take its dependent rows. */
    method RemovePost(postId: int)
      requires Valid()
      modifies this
      ensures Valid()
      ensures Snapshot() == DeletePostCascade(old(Snapshot()), postId)
    {
      DeletePostKeepsConsistency(Snapshot(), postId);
      Store(DeletePostCascade(Snapshot(), postId));
    }

    /** Deleting a user row: refused with a foreign-key violation while a
        NoAction edge still points at the user; otherwise the cascades run. */
    method RemoveUser(userId: UserId) returns (r: Result<(), StoreError>)
      requires Valid()
      modifies this
      ensures Valid()
      ensures r.Err? <==> DeleteUserBlocked(old(Snapshot()), userId)
      ensures r.Err? ==> r.error == ForeignKeyViolation && Snapshot() == old(Snapshot())
      ensures r.Ok? ==> Snapshot() == DeleteUserCascade(old(Snapshot()), userId)
    {
      var before := Snapshot();
      if DeleteUserBlocked(before, userId) {
        r := Err(ForeignKeyViolation);
      } else {
        DeleteUserKeepsConsistency(before, userId);
        Store(DeleteUserCascade(before, userId));
        r := Ok(());
      }
    }

    /** `UserManager.CreateAsync(draft, password)`. Identity's validation and
        password policy are outside the model: `accepted` is their verdict. On
        success the user gets a fresh key and is stored; otherwise nothing changes. */
    method CreateUser(draft: User, accepted: bool) returns (created: Option<User>)
      requires Valid()
      requires draft.roleNames <= roleNames
      modifies this
      ensures Valid()
      ensures created.Some? <==> accepted
      ensures created.Some? ==> created.value == draft.(id := FreshUserId(old(users)))
      ensures created.Some? ==> users == old(users) + [created.value]
      ensures created.None? ==> users == old(users)
      ensures posts == old(posts) && tags == old(tags) && postTags == old(postTags)
      ensures likes == old(likes) && comments == old(comments) && roleNames == old(roleNames)
    {
      if !accepted {
        return None;
      }
      var user := draft.(id := FreshUserId(users));
      AppendKeysUnique(users, UserKey, user);
      users := users + [user];
      created := Some(user);
    }

    /** Writes a changed user row back. */
    method UpdateUser(u: User)
      requires Valid()
      requires u.id in UserIds(users)
      requires u.roleNames <= roleNames
      modifies this
      ensures Valid()
      ensures users == ReplaceByKey(old(users), UserKey, u)
      ensures u in users
      ensures UserIds(users) == UserIds(old(users))
      ensures posts == old(posts) && tags == old(tags) && postTags == old(postTags)
      ensures likes == old(likes) && comments == old(comments) && roleNames == old(roleNames)
    {
      ReplaceUserKeepsConsistency(Snapshot(), u);
      ReplaceByKeyKeepsKeys(users, UserKey, u);
      users := ReplaceByKey(users, UserKey, u);
    }

    /** `UserManager.AddToRoleAsync(u, role)`. A user already in the role is
        left alone (Identity reports a failure the callers ignore). Otherwise the
        role must exist, or the store throws before anything is written; when it
        does, u joins it and is written back. */
    method AddToRole(u: User, role: string) returns (r: Result<User, StoreError>)
      requires Valid()
      requires u in users
      modifies this
      ensures Valid()
      ensures r.Err? <==> role !in old(roleNames)
      ensures r.Err? ==> r.error == RoleNotFound(role) && Snapshot() == old(Snapshot())
      ensures r.Ok? ==> r.value == u.(roleNames := u.roleNames + {role})
      ensures r.Ok? && role in u.roleNames ==> Snapshot() == old(Snapshot())
      ensures r.Ok? && role !in u.roleNames ==>
        Snapshot() == old(Snapshot()).(users := ReplaceByKey(old(users), UserKey, r.value))
    {
      if role in u.roleNames {
        assert u.(roleNames := u.roleNames + {role}) == u;
        return Ok(u);
      }
      if role !in roleNames {
        return Err(RoleNotFound(role));
      }
      var joined := u.(roleNames := u.roleNames + {role});
      UpdateUser(joined);
      r := Ok(joined);
    }

    /** Moving a stored user to one role, as the role-changing pages do it:
        `RemoveFromRolesAsync` of all its roles, `Role = role` and `UpdateAsync`,
        then `AddToRoleAsync(role.ToString())`. The user ends with Role role and
        exactly that role's name as its role set; when the role table lacks that
        name, the first two writes stay and the user is left with no role. */
    method SwitchRole(u: User, role: UserRole) returns (r: Result<User, StoreError>)
      requires Valid()
      requires u.id in UserIds(users)
      modifies this
      ensures Valid()
      ensures r.Err? <==> RoleName(role) !in old(roleNames)
      ensures r.Ok? ==>
        && r.value == u.(role := role, roleNames := {RoleName(role)})
        && Snapshot() == old(Snapshot()).(users := ReplaceByKey(old(users), UserKey, r.value))
      ensures r.Err? ==>
        && r.error == RoleNotFound(RoleName(role))
        && Snapshot() == old(Snapshot()).(users := ReplaceByKey(old(users), UserKey, u.(role := role, roleNames := {})))
    {
      ghost var before := users;
      var user := u;
      // RemoveFromRolesAsync(user, GetRolesAsync(user))
      var currentRoles := user.roleNames;
      user := user.(roleNames := user.roleNames - currentRoles);
      UpdateUser(user);
      // user.Role = role; UpdateAsync(user)
      user := user.(role := role);
      UpdateUser(user);
      ReplaceByKeyTwice(before, UserKey, u.(roleNames := {}), user);
      assert user == u.(role := role, roleNames := {});
      // AddToRoleAsync(user, role.ToString())
      r := AddToRole(user, RoleName(role));
      if r.Ok? {
        ReplaceByKeyTwice(before, UserKey, user, r.value);
      }
    }

    /** `CreateAsync` and then, only when it succeeded, `AddToRoleAsync(role)`.
        A refused creation changes nothing. A created user joins the role, or,
        when the role table lacks it, stays stored without it while the
        exception reaches the caller. */
    method CreateUserInRole(draft: User, role: string, accepted: bool) returns (r: Result<Option<User>, StoreError>)
      requires Valid()
      requires draft.roleNames <= roleNames
      modifies this
      ensures Valid()
      ensures r == Ok(None) <==> !accepted
      ensures r.Err? <==> accepted && role !in old(roleNames)
      ensures r == Ok(None) ==> Snapshot() == old(Snapshot())
      ensures r.Ok? && r.value.Some? ==>
        && r.value.value == draft.(id := FreshUserId(old(users)), roleNames := draft.roleNames + {role})
        && Snapshot() == old(Snapshot()).(users := old(users) + [r.value.value])
      ensures r.Err? ==>
        && r.error == RoleNotFound(role)
        && Snapshot() == old(Snapshot()).(users := old(users) + [draft.(id := FreshUserId(old(users)))])
    {
      ghost var before := users;
      var created := CreateUser(draft, accepted);
      if created.None? {
        return Ok(None);
      }
      assert users[|before|] == created.value;
      assert UserKey(created.value) in UserIds(users);
      var joined := AddToRole(created.value, role);
      if joined.Err? {
        return Err(joined.error);
      }
      if role !in created.value.roleNames {
        ReplaceAppended(before, UserKey, created.value, joined.value);
      } else {
        assert joined.value == created.value;
      }
      r := Ok(Some(joined.value));
    }
  
    /** `RoleManager.CreateAsync(new IdentityRole(name))`. */
    method CreateRole(name: string)
      requires Valid()
      modifies this
      ensures Valid()
      ensures Snapshot() == old(Snapshot()).(roleNames := old(roleNames) + {name})
    {
      roleNames := roleNames + {name};
    }
  }
}
