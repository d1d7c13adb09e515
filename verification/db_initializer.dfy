/** Seeding at start-up: the Leader and Member roles, one default user of each,
    and the default tags. */
module Seeding {
  import opened Wrappers
  import opened Entities
  import opened Queries
  import opened Data

  const LeaderEmail: string := "leader@echos.com"
  const MemberEmail: string := "member@echos.com"

  /** The five default tags. The identity column numbers them 1 to 5 in an
      empty table. */
  function DefaultTags(now: Time): (tags: seq<Tag>)
    ensures |tags| == 5
    ensures KeysUnique(tags, TagKey)
    ensures forall g :: g in tags ==> g.createdAt == now
  {
    [ Tag(1, "アイデア", "#0d6efd", now),
      Tag(2, "バグ報告", "#dc3545", now),
      Tag(3, "改善提案", "#198754", now),
      Tag(4, "質問", "#ffc107", now),
      Tag(5, "その他", "#6c757d", now) ]
  }

  /** `Users.Any(u => u.Email == email)`: exact comparison. */
  predicate HasUserWithEmail(users: seq<User>, email: string) {
    exists u :: u in users && u.email == email
  }

  /** A default user as stored after its creation and its role assignment. */
  function DefaultUser(id: UserId, email: string, role: UserRole, now: Time): User {
    User(id, email, email, true, role, now, {RoleName(role)})
  }

  /** One default-user step: the user is created only when no user has the
      e-mail, and stored (with its role name) only when Identity accepted it. */
  function SeedUser(t: Tables, email: string, role: UserRole, now: Time, accepted: bool): (r: Tables)
    ensures HasUserWithEmail(t.users, email) || !accepted ==> r == t
    ensures r == t.(users := r.users)
    ensures |t.users| <= |r.users| <= |t.users| + 1 && r.users[..|t.users|] == t.users
    ensures forall u :: u in r.users && u !in t.users ==>
              && u.email == email && u.userName == email && u.role == role
              && u.roleNames == {RoleName(role)} && u.id !in UserIds(t.users)
    ensures accepted ==> HasUserWithEmail(r.users, email)
  {
    if HasUserWithEmail(t.users, email) || !accepted then t
    else
      var u := DefaultUser(FreshUserId(t.users), email, role, now);
      assert (t.users + [u])[..|t.users|] == t.users;
      assert u in t.users + [u];
      t.(users := t.users + [u])
  }

  /** InitializeAsync on the tables t. `leaderAccepted` and `memberAccepted`
      are Identity's verdicts on creating the two default users. */
  function Seed(t: Tables, now: Time, leaderAccepted: bool, memberAccepted: bool): Tables {
    var withRoles := t.(roleNames := t.roleNames + {RoleName(Leader), RoleName(Member)});
    var withLeader := SeedUser(withRoles, LeaderEmail, Leader, now, leaderAccepted);
    var withMember := SeedUser(withLeader, MemberEmail, Member, now, memberAccepted);
    if withMember.tags == [] then withMember.(tags := DefaultTags(now)) else withMember
  }

  /** A default user's row keeps every key and reference intact. */
  lemma SeedUserKeepsConsistency(t: Tables, email: string, role: UserRole, now: Time, accepted: bool)
    requires Consistent(t)
    requires RoleName(role) in t.roleNames
    ensures Consistent(SeedUser(t, email, role, now, accepted))
  {
    if !HasUserWithEmail(t.users, email) && accepted {
      AppendKeysUnique(t.users, UserKey, DefaultUser(FreshUserId(t.users), email, role, now));
    }
  }

  /** Filling an empty tag table keeps every key and reference intact. */
  lemma DefaultTagsKeepConsistency(t: Tables, now: Time)
    requires Consistent(t) && t.tags == []
    ensures Consistent(t.(tags := DefaultTags(now)))
  {
  }

  /** Seeding keeps every key and reference intact. */
  lemma SeedKeepsConsistency(t: Tables, now: Time, leaderAccepted: bool, memberAccepted: bool)
    requires Consistent(t)
    ensures Consistent(Seed(t, now, leaderAccepted, memberAccepted))
  {
    var withRoles := t.(roleNames := t.roleNames + {RoleName(Leader), RoleName(Member)});
    var withLeader := SeedUser(withRoles, LeaderEmail, Leader, now, leaderAccepted);
    var withMember := SeedUser(withLeader, MemberEmail, Member, now, memberAccepted);
    SeedUserKeepsConsistency(withRoles, LeaderEmail, Leader, now, leaderAccepted);
    SeedUserKeepsConsistency(withLeader, MemberEmail, Member, now, memberAccepted);
    if withMember.tags == [] {
      DefaultTagsKeepConsistency(withMember, now);
    }
  }

  /** What seeding does: the Leader and Member role names are present after,
      and the Admin role is neither created nor removed; existing users stay
      and at most the two default users are added, each only when no user had
      its e-mail; the tags are filled only when the table was empty; nothing
      else changes. */
  lemma SeedEffect(t: Tables, now: Time, leaderAccepted: bool, memberAccepted: bool)
    ensures var r := Seed(t, now, leaderAccepted, memberAccepted);
      && r.roleNames == t.roleNames + {"Leader", "Member"}
      && ("Admin" in r.roleNames <==> "Admin" in t.roleNames)
      && r.posts == t.posts && r.postTags == t.postTags && r.likes == t.likes && r.comments == t.comments
      && |t.users| <= |r.users| <= |t.users| + 2 && r.users[..|t.users|] == t.users
      && (t.tags != [] ==> r.tags == t.tags)
      && (t.tags == [] ==> r.tags == DefaultTags(now))
      && (HasUserWithEmail(t.users, LeaderEmail) && HasUserWithEmail(t.users, MemberEmail) ==> r.users == t.users)
      && (leaderAccepted ==> HasUserWithEmail(r.users, LeaderEmail))
      && (memberAccepted ==> HasUserWithEmail(r.users, MemberEmail))
  {
    var withRoles := t.(roleNames := t.roleNames + {RoleName(Leader), RoleName(Member)});
    var withLeader := SeedUser(withRoles, LeaderEmail, Leader, now, leaderAccepted);
    var withMember := SeedUser(withLeader, MemberEmail, Member, now, memberAccepted);
    assert withLeader == withRoles.(users := withLeader.users);
    assert withMember == withLeader.(users := withMember.users);
    SeedUsersEffect(withRoles.users, withLeader.users, withMember.users, leaderAccepted);
  }

  /** The user table through the two default-user blocks: it only grows, by at
      most two rows, and a Leader created by the first block is still there
      after the second. */
  lemma SeedUsersEffect(users: seq<User>, withLeader: seq<User>, withMember: seq<User>, leaderAccepted: bool)
    requires |users| <= |withLeader| <= |users| + 1 && withLeader[..|users|] == users
    requires |withLeader| <= |withMember| <= |withLeader| + 1 && withMember[..|withLeader|] == withLeader
    requires leaderAccepted ==> HasUserWithEmail(withLeader, LeaderEmail)
    ensures |users| <= |withMember| <= |users| + 2 && withMember[..|users|] == users
    ensures leaderAccepted ==> HasUserWithEmail(withMember, LeaderEmail)
  {
    assert withMember[..|users|] == withMember[..|withLeader|][..|users|];
    if leaderAccepted {
      var u :| u in withLeader && u.email == LeaderEmail;
      assert u in withMember by {
        var i :| 0 <= i < |withLeader| && withLeader[i] == u;
        assert withMember[..|withLeader|][i] == u;
      }
    }
  }

  /** Seeding a second time adds no roles and no tags, and adds no users once
      both default users exist, in particular after a first run whose two
      creations were accepted. */
  lemma SeedTwice(t: Tables, now: Time, later: Time, leaderAccepted: bool, memberAccepted: bool, leaderAgain: bool, memberAgain: bool)
    ensures var once := Seed(t, now, leaderAccepted, memberAccepted);
      var twice := Seed(once, later, leaderAgain, memberAgain);
      && twice.roleNames == once.roleNames
      && twice.tags == once.tags
      && (HasUserWithEmail(once.users, LeaderEmail) && HasUserWithEmail(once.users, MemberEmail) ==> twice == once)
      && (leaderAccepted && memberAccepted ==> twice == once)
  {
    var once := Seed(t, now, leaderAccepted, memberAccepted);
    SeedEffect(t, now, leaderAccepted, memberAccepted);
    SeedEffect(once, later, leaderAgain, memberAgain);
    assert once.roleNames + {RoleName(Leader), RoleName(Member)} == once.roleNames;
    assert once.tags != [];
  }

  /** One default-user block: look the e-mail up, and only when no user has
      it, create the user and give it its role. */
  method SeedDefaultUser(context: EchosDb, email: string, role: UserRole, now: Time, accepted: bool)
    requires context.Valid()
    requires RoleName(role) in context.roleNames  // the roles are created first
    modifies context
    ensures context.Valid()
    ensures context.Snapshot() == SeedUser(old(context.Snapshot()), email, role, now, accepted)
  {
    if !HasUserWithEmail(context.users, email) {
      ghost var before := context.users;
      var draft := User("", email, email, true, role, now, {});
      var created := context.CreateUserInRole(draft, RoleName(role), accepted);
      if created.Ok? && created.value.Some? {
        assert created.value.value == DefaultUser(FreshUserId(before), email, role, now);
      }
    }
  }

  /** InitializeAsync: the roles, the two default users and the tags, in the
      source's order. */
  method Initialize(context: EchosDb, now: Time, leaderAccepted: bool, memberAccepted: bool)
    requires context.Valid()
    modifies context
    ensures context.Valid()
    ensures context.Snapshot() == Seed(old(context.Snapshot()), now, leaderAccepted, memberAccepted)
  {
    if RoleName(Leader) !in context.roleNames {
      context.CreateRole(RoleName(Leader));
    }
    if RoleName(Member) !in context.roleNames {
      context.CreateRole(RoleName(Member));
    }
    assert context.roleNames == old(context.roleNames) + {RoleName(Leader), RoleName(Member)};

    SeedDefaultUser(context, LeaderEmail, Leader, now, leaderAccepted);
    SeedDefaultUser(context, MemberEmail, Member, now, memberAccepted);

    if context.tags == [] {
      DefaultTagsKeepConsistency(context.Snapshot(), now);
      context.Store(context.Snapshot().(tags := DefaultTags(now)));
    }
  }
}
