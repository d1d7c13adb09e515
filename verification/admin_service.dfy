/** The administration service: listing users, changing a user's role,
    deleting users and deleting any post. */
module AdminServices {
  import opened Wrappers
  import opened Entities
  import opened Queries
  import opened Ordering
  import opened Data

  /** OrderBy(Email). */
  predicate EmailOrder(a: User, b: User) {
    StrLe(a.email, b.email)
  }

  lemma EmailOrderIsTotalPreorder()
    ensures TotalPreorder(EmailOrder)
  {
    StrKeyIsTotalPreorder(EmailOrder, (u: User) => u.email);
  }

  /** A user row after its role is set: the Role column and the Identity role
      membership agree on exactly that one role. */
  function WithRole(u: User, role: UserRole): (r: User)
    ensures r.id == u.id && r.email == u.email && r.userName == u.userName
    ensures r.role == role && r.roleNames == {RoleName(role)}
    ensures forall other: UserRole :: RoleName(other) in r.roleNames <==> other == r.role
  {
    RoleSetNamesOneRole(role);
    u.(role := role, roleNames := {RoleName(role)})
  }

  /** The singleton role set of a role holds the name of that role and of no other. */
  lemma RoleSetNamesOneRole(role: UserRole)
    ensures forall other: UserRole :: RoleName(other) in {RoleName(role)} <==> other == role
  {
    forall other: UserRole ensures RoleName(other) in {RoleName(role)} <==> other == role {
      RoleNameInjective(other, role);
    }
  }

  /** The administration service over one database (Identity's user store
      included). */
  class AdminService {
    const context: EchosDb

    constructor (context: EchosDb)
      ensures this.context == context
    {
      this.context := context;
    }

    /** GetAllUsersAsync: every user exactly once, ordered by e-mail. */
    method GetAllUsers() returns (r: seq<User>)
      ensures multiset(r) == multiset(context.users)
      ensures SortedBy(r, EmailOrder)
    {
      EmailOrderIsTotalPreorder();
      r := SortBy(context.users, EmailOrder);
    }

    /** ChangeUserRoleAsync: refuses Admin as the new role before any lookup,
        and an unknown user; otherwise the user leaves all its roles, takes
        newRole as Role and joins that one role. The current role is not
        checked. When the role table lacks newRole's role, the exception of
        `AddToRoleAsync` is re-thrown after the first two writes: the user is
        then stored with Role newRole and no role at all. */
    method ChangeUserRole(userId: UserId, newRole: UserRole) returns (r: Result<bool, StoreError>)
      requires context.Valid()
      modifies context
      ensures context.Valid()
      ensures r == Ok(true) <==>
        newRole != Admin && userId in UserIds(old(context.users)) && RoleName(newRole) in old(context.roleNames)
      ensures r.Err? <==>
        newRole != Admin && userId in UserIds(old(context.users)) && RoleName(newRole) !in old(context.roleNames)
      ensures r == Ok(false) ==> context.Snapshot() == old(context.Snapshot())
      ensures r == Ok(true) ==> context.Snapshot() == old(context.Snapshot()).(users :=
        ReplaceByKey(old(context.users), UserKey, WithRole(UserById(old(context.users), userId).value, newRole)))
      ensures r.Err? ==> r.error == RoleNotFound(RoleName(newRole)) && context.Snapshot() == old(context.Snapshot()).(users :=
        ReplaceByKey(old(context.users), UserKey, UserById(old(context.users), userId).value.(role := newRole, roleNames := {})))
    {
      if newRole == Admin {
        return Ok(false);
      }
      var found := UserById(context.users, userId);
      if found.None? {
        return Ok(false);
      }
      var switched := context.SwitchRole(found.value, newRole);
      if switched.Err? {
        return Err(switched.error);
      }
      r := Ok(true);
    }

    /** DeleteUserAsync: refuses an unknown user and an Admin. Otherwise the
        result is Identity's verdict (`identityAccepts`); the database itself
        refuses, with a foreign-key violation, while likes or comments of the
        user on other users' posts remain. */
    method DeleteUser(userId: UserId, identityAccepts: bool) returns (r: Result<bool, StoreError>)
      requires context.Valid()
      modifies context
      ensures context.Valid()
      ensures var found := UserById(old(context.users), userId);
        r == Ok(true) <==> found.Some? && found.value.role != Admin && identityAccepts
                           && !DeleteUserBlocked(old(context.Snapshot()), userId)
      ensures var found := UserById(old(context.users), userId);
        r.Err? <==> found.Some? && found.value.role != Admin && identityAccepts
                    && DeleteUserBlocked(old(context.Snapshot()), userId)
      ensures r == Ok(true) ==> context.Snapshot() == DeleteUserCascade(old(context.Snapshot()), userId)
      ensures r != Ok(true) ==> context.Snapshot() == old(context.Snapshot())
      ensures r.Err? ==> r.error == ForeignKeyViolation
    {
      var user := UserById(context.users, userId);
      if user.None? {
        return Ok(false);
      }
      if user.value.role == Admin {
        return Ok(false);
      }
      if !identityAccepts {
        return Ok(false);
      }
      var removed := context.RemoveUser(userId);
      if removed.Err? {
        return Err(removed.error);
      }
      r := Ok(true);
    }

    /** DeletePostAsync (the administrator's path): no ownership check; a
        missing post gives false. */
    method DeletePost(postId: int) returns (ok: bool)
      requires context.Valid()
      modifies context
      ensures context.Valid()
      ensures ok <==> postId in PostIds(old(context.posts))
      ensures ok ==> context.Snapshot() == DeletePostCascade(old(context.Snapshot()), postId)
      ensures !ok ==> context.Snapshot() == old(context.Snapshot())
    {
      var post := PostById(context.posts, postId);
      if post.None? {
        return false;
      }
      context.RemovePost(postId);
      ok := true;
    }
  }
}
