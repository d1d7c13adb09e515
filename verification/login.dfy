/** The login page: looking the user up by e-mail, promoting configured
    administrators, and the sign-in decision. */
module LoginPage {
  import opened Wrappers
  import opened Entities
  import opened Queries
  import opened Data

  /** The message shown both for an unknown e-mail and for a refused password. */
  const InvalidCredentials: string := "メールアドレスまたはパスワードが正しくありません。"

  /** The prefix of the message shown when the login throws. */
  const LoginFailed: string := "ログイン中にエラーが発生しました: "

  /** Where a successful sign-in goes when no return URL is given. */
  const DefaultReturnUrl: string := "/posts"

  /** The `AdminSettings:AdminEmails` list contains the e-mail, compared
      with ordinal case-insensitive equality; an absent list contains nothing. */
  predicate IsConfiguredAdmin(adminEmails: Option<seq<string>>, email: string) {
    adminEmails.Some? && exists e :: e in adminEmails.value && EqualsIgnoreCase(e, email)
  }

  /** The user row after CheckAndPromoteToAdmin. */
  function Promoted(u: User, adminEmails: Option<seq<string>>): (r: User)
    ensures r.role == Admin <==> u.role == Admin || IsConfiguredAdmin(adminEmails, u.email)
    ensures r.role == Admin && u.role != Admin ==> r.roleNames == {RoleName(Admin)}
    ensures r.role == u.role ==> r == u
    ensures r.(role := u.role, roleNames := u.roleNames) == u
  {
    if IsConfiguredAdmin(adminEmails, u.email) && u.role != Admin then
      u.(role := Admin, roleNames := {RoleName(Admin)})
    else u
  }

  /** Promotion never takes the Admin role away, and a second login promotes
      no further. */
  lemma PromotedIdempotent(u: User, adminEmails: Option<seq<string>>)
    ensures Promoted(Promoted(u, adminEmails), adminEmails) == Promoted(u, adminEmails)
    ensures u.role == Admin ==> Promoted(u, adminEmails) == u
  {
  }

  /** The login page's state and the services it uses. */
  class Login {
    const context: EchosDb
    const adminEmails: Option<seq<string>>
    var isSubmitting: bool
    var errorMessage: Option<string>

    constructor (context: EchosDb, adminEmails: Option<seq<string>>)
      ensures this.context == context && this.adminEmails == adminEmails
      ensures !isSubmitting && errorMessage.None?
    {
      this.context := context;
      this.adminEmails := adminEmails;
      isSubmitting := false;
      errorMessage := None;
    }

    /** CheckAndPromoteToAdmin: a listed user that is not yet an Admin leaves
        its roles, takes Role Admin and joins the "Admin" role; any other user
        is left as stored. When the role table has no "Admin" role, the
        exception of `AddToRoleAsync` escapes after Role Admin was saved and the
        old roles were removed. */
    method CheckAndPromoteToAdmin(user: User) returns (r: Result<(), StoreError>)
      requires context.Valid()
      requires user in context.users
      modifies context
      ensures context.Valid()
      ensures r.Err? <==> Promoted(user, adminEmails) != user && RoleName(Admin) !in old(context.roleNames)
      ensures r.Ok? ==> context.Snapshot() == old(context.Snapshot()).(users :=
        ReplaceByKey(old(context.users), UserKey, Promoted(user, adminEmails)))
      ensures r.Err? ==> r.error == RoleNotFound(RoleName(Admin)) && context.Snapshot() == old(context.Snapshot()).(users :=
        ReplaceByKey(old(context.users), UserKey, Promoted(user, adminEmails).(roleNames := {})))
    {
      if IsConfiguredAdmin(adminEmails, user.email) {
        if user.role != Admin {
          assert user.id in UserIds(context.users);
          var switched := context.SwitchRole(user, Admin);
          if switched.Err? {
            return Err(switched.error);
          }
          return Ok(());
        }
      }
      assert Promoted(user, adminEmails) == user;
      ReplaceByKeySame(context.users, UserKey, user);
      r := Ok(());
    }

    /** HandleLogin. `signInSucceeds` is the verdict of the password check.
        The user is found by e-mail; an unknown e-mail stops here. A found user
        is promoted first, then signed in; a refused password gives the same
        message as an unknown e-mail, and an exception from the promotion shows
        its message and skips the sign-in. The result is the page navigated to. */
    method HandleLogin(email: string, signInSucceeds: bool, returnUrl: Option<string>)
      returns (navigateTo: Option<string>)
      requires context.Valid()
      modifies this, context
      ensures context.Valid()
      ensures !isSubmitting
      ensures var found := UserByEmail(old(context.users), email);
        found.None? ==>
          && errorMessage == Some(InvalidCredentials)
          && navigateTo.None?
          && context.Snapshot() == old(context.Snapshot())
      ensures var found := UserByEmail(old(context.users), email);
        found.Some? && !PromotionFails(found.value, old(context.roleNames)) ==>
          context.Snapshot() == old(context.Snapshot()).(users :=
            ReplaceByKey(old(context.users), UserKey, Promoted(found.value, adminEmails)))
      ensures var found := UserByEmail(old(context.users), email);
        found.Some? && PromotionFails(found.value, old(context.roleNames)) ==>
          && errorMessage == Some(LoginFailed + StoreErrorMessage(RoleNotFound(RoleName(Admin))))
          && navigateTo.None?
          && context.Snapshot() == old(context.Snapshot()).(users :=
            ReplaceByKey(old(context.users), UserKey, Promoted(found.value, adminEmails).(roleNames := {})))
      ensures var found := UserByEmail(old(context.users), email);
        found.Some? && !PromotionFails(found.value, old(context.roleNames)) && signInSucceeds ==>
          errorMessage.None? && navigateTo == Some(returnUrl.GetOr(DefaultReturnUrl))
      ensures var found := UserByEmail(old(context.users), email);
        found.Some? && !PromotionFails(found.value, old(context.roleNames)) && !signInSucceeds ==>
          errorMessage == Some(InvalidCredentials) && navigateTo.None?
    {
      isSubmitting := true;
      errorMessage := None;
      navigateTo := None;

      var user := UserByEmail(context.users, email);
      if user.None? {
        errorMessage := Some(InvalidCredentials);
        isSubmitting := false;
        return;
      }

      var promotion := CheckAndPromoteToAdmin(user.value);
      if promotion.Err? {
        errorMessage := Some(LoginFailed + StoreErrorMessage(promotion.error));
        isSubmitting := false;
        return;
      }

      if signInSucceeds {
        navigateTo := Some(returnUrl.GetOr(DefaultReturnUrl));
      } else {
        errorMessage := Some(InvalidCredentials);
      }
      isSubmitting := false;
    }

    /** The promotion of u would have to add it to an "Admin" role that the
        role table lacks. */
    predicate PromotionFails(u: User, roleNames: set<string>) {
      Promoted(u, adminEmails) != u && RoleName(Admin) !in roleNames
    }
  }
}
