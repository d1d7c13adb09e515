/** The registration page: the form's validation rules, and the checks and
    user creation of the submit handler. */
module RegisterPage {
  import opened Wrappers
  import opened Entities
  import opened Queries
  import opened Data

  const PasswordMismatch: string := "パスワードが一致しません。"
  const EmailTaken: string := "このメールアドレスは既に登録されています。"
  const RegistrationFailed: string := "登録に失敗しました: "
  const RegistrationError: string := "登録中にエラーが発生しました: "
  const Registered: string := "アカウント登録が完了しました。ログインページにリダイレクトします..."
  const AfterRegistration: string := "/posts"

  const EmailRequired: string := "メールアドレスは必須です"
  const EmailInvalid: string := "有効なメールアドレスを入力してください"
  const PasswordRequired: string := "パスワードは必須です"
  const PasswordLength: string := "パスワードは8文字以上で入力してください"
  const ConfirmRequired: string := "パスワード（確認）は必須です"
  const ConfirmDiffers: string := "パスワードが一致しません"

  /** The bound form. */
  datatype RegisterModel = RegisterModel(email: string, password: string, confirmPassword: string)

  /** `char.IsWhiteSpace`: the Unicode space, line and paragraph separators
      and the control characters U+0009 to U+000D and U+0085. */
  predicate IsWhiteSpace(c: char) {
    || c == ' ' || '\t' <= c <= '\r' || c == '\U{0085}' || c == '\U{00A0}'
    || c == '\U{1680}' || '\U{2000}' <= c <= '\U{200A}' || c == '\U{2028}'
    || c == '\U{2029}' || c == '\U{202F}' || c == '\U{205F}' || c == '\U{3000}'
  }

  /** `[Required]` on a string: not empty and not only white space. */
  predicate RequiredHolds(s: string) {
    exists i :: 0 <= i < |s| && !IsWhiteSpace(s[i])
  }

  /** `[EmailAddress]`: exactly one '@', neither first nor last. */
  predicate EmailAddressHolds(s: string) {
    exists i :: 0 < i < |s| - 1 && s[i] == '@'
                && forall j :: 0 <= j < |s| && j != i ==> s[j] != '@'
  }

  /** `[StringLength(100, MinimumLength = 8)]`. */
  predicate PasswordLengthHolds(s: string) {
    8 <= |s| <= 100
  }

  /** Every annotation of the form holds. */
  predicate FormValid(m: RegisterModel) {
    && RequiredHolds(m.email) && EmailAddressHolds(m.email)
    && RequiredHolds(m.password) && PasswordLengthHolds(m.password)
    && RequiredHolds(m.confirmPassword) && m.confirmPassword == m.password
  }

  /** The messages of one property: a failed `[Required]` is reported alone. */
  function PropertyErrors(required: bool, required_message: string, rest: bool, rest_message: string): (errs: seq<string>)
    ensures errs == [] <==> required && rest
    ensures |errs| <= 1
  {
    if !required then [required_message] else if !rest then [rest_message] else []
  }

  /** The data-annotation messages of the form, property by property. */
  function ValidationErrors(m: RegisterModel): (errs: seq<string>)
    ensures errs == [] <==> FormValid(m)
    ensures |errs| <= 3
    ensures !RequiredHolds(m.password) ==> PasswordRequired in errs
    ensures RequiredHolds(m.password) && !PasswordLengthHolds(m.password) ==> PasswordLength in errs
    ensures RequiredHolds(m.confirmPassword) && m.confirmPassword != m.password ==> ConfirmDiffers in errs
  {
    PropertyErrors(RequiredHolds(m.email), EmailRequired, EmailAddressHolds(m.email), EmailInvalid)
    + PropertyErrors(RequiredHolds(m.password), PasswordRequired, PasswordLengthHolds(m.password), PasswordLength)
    + PropertyErrors(RequiredHolds(m.confirmPassword), ConfirmRequired, m.confirmPassword == m.password, ConfirmDiffers)
  }

  /** `string.Join(sep, parts)`. */
  function Join(parts: seq<string>, sep: string): string {
    if parts == [] then ""
    else if |parts| == 1 then parts[0]
    else parts[0] + sep + Join(parts[1..], sep)
  }

  /** No two users share an e-mail address, compared case-insensitively
      (the duplicate check of registration). */
  ghost predicate EmailsDistinct(users: seq<User>) {
    forall i, j :: 0 <= i < j < |users| ==> !EqualsIgnoreCase(users[i].email, users[j].email)
  }

  lemma AppendKeepsEmailsDistinct(users: seq<User>, u: User)
    requires EmailsDistinct(users)
    requires UserByEmail(users, u.email).None?
    ensures EmailsDistinct(users + [u])
  {
    var r := users + [u];
    forall i, j | 0 <= i < j < |r| ensures !EqualsIgnoreCase(r[i].email, r[j].email) {
      assert r[i] == users[i] && r[i] in users;
      if j < |users| {
        assert r[j] == users[j];
      } else {
        assert !EqualsIgnoreCase(r[i].email, u.email);
        assert FoldCase(r[i].email) != FoldCase(u.email);
      }
    }
  }

  /** The row registration stores: user name and e-mail both the given
      address, e-mail confirmed, Role Member and member of the "Member" role. */
  function NewMember(id: UserId, email: string, now: Time): (u: User)
    ensures u.id == id && u.userName == email && u.email == email && u.emailConfirmed
    ensures u.role == Member && u.roleNames == {RoleName(Member)} && u.createdAt == now
  {
    User(id, email, email, true, Member, now, {RoleName(Member)})
  }

  /** The registration page's state and the store it writes to. */
  class Register {
    const context: EchosDb
    var isSubmitting: bool
    var errorMessage: Option<string>
    var successMessage: Option<string>

    constructor (context: EchosDb)
      ensures this.context == context
      ensures !isSubmitting && errorMessage.None? && successMessage.None?
    {
      this.context := context;
      isSubmitting := false;
      errorMessage := None;
      successMessage := None;
    }

    /** HandleRegister. `createAccepted` and `identityErrors` are the verdict
        and the error descriptions of `UserManager.CreateAsync`. Checks run in
        order: the passwords must match, then no user may have the e-mail;
        then the user is created and, only if that succeeded, joins "Member".
        When the role table has no "Member" role, the created user stays
        without a role and the exception's message is shown. The result is the
        page navigated to. */
    method HandleRegister(form: RegisterModel, now: Time, createAccepted: bool, identityErrors: seq<string>)
      returns (navigateTo: Option<string>)
      requires context.Valid()
      modifies this, context
      ensures context.Valid()
      ensures !isSubmitting
      ensures form.password != form.confirmPassword ==>
        && errorMessage == Some(PasswordMismatch) && successMessage.None? && navigateTo.None?
        && context.Snapshot() == old(context.Snapshot())
      ensures form.password == form.confirmPassword && UserByEmail(old(context.users), form.email).Some? ==>
        && errorMessage == Some(EmailTaken) && successMessage.None? && navigateTo.None?
        && context.Snapshot() == old(context.Snapshot())
      ensures form.password == form.confirmPassword && UserByEmail(old(context.users), form.email).None? && !createAccepted ==>
        && errorMessage == Some(RegistrationFailed + Join(identityErrors, ", "))
        && successMessage.None? && navigateTo.None?
        && context.Snapshot() == old(context.Snapshot())
      ensures (form.password == form.confirmPassword && UserByEmail(old(context.users), form.email).None? && createAccepted
        && RoleName(Member) in old(context.roleNames)) ==>
        && errorMessage.None? && successMessage == Some(Registered) && navigateTo == Some(AfterRegistration)
        && context.Snapshot() == old(context.Snapshot()).(users :=
             old(context.users) + [NewMember(FreshUserId(old(context.users)), form.email, now)])
      ensures (form.password == form.confirmPassword && UserByEmail(old(context.users), form.email).None? && createAccepted
        && RoleName(Member) !in old(context.roleNames)) ==>
        && errorMessage == Some(RegistrationError + StoreErrorMessage(RoleNotFound(RoleName(Member))))
        && successMessage.None? && navigateTo.None?
        && context.Snapshot() == old(context.Snapshot()).(users :=
             old(context.users) + [NewMember(FreshUserId(old(context.users)), form.email, now).(roleNames := {})])
      ensures EmailsDistinct(old(context.users)) ==> EmailsDistinct(context.users)
    {
      isSubmitting := true;
      errorMessage := None;
      successMessage := None;
      navigateTo := None;

      if form.password != form.confirmPassword {
        errorMessage := Some(PasswordMismatch);
        isSubmitting := false;
        return;
      }

      var existing := UserByEmail(context.users, form.email);
      if existing.Some? {
        errorMessage := Some(EmailTaken);
        isSubmitting := false;
        return;
      }

      var draft := User("", form.email, form.email, true, Member, now, {});
      var created := context.CreateUserInRole(draft, RoleName(Member), createAccepted);
      if created.Err? {
        ghost var stored := NewMember(FreshUserId(old(context.users)), form.email, now).(roleNames := {});
        assert draft.(id := FreshUserId(old(context.users))) == stored;
        if EmailsDistinct(old(context.users)) {
          AppendKeepsEmailsDistinct(old(context.users), stored);
        }
        errorMessage := Some(RegistrationError + StoreErrorMessage(created.error));
      } else if created.value.Some? {
        assert created.value.value == NewMember(FreshUserId(old(context.users)), form.email, now);
        if EmailsDistinct(old(context.users)) {
          AppendKeepsEmailsDistinct(old(context.users), created.value.value);
        }
        successMessage := Some(Registered);
        navigateTo := Some(AfterRegistration);
      } else {
        errorMessage := Some(RegistrationFailed + Join(identityErrors, ", "));
      }
      isSubmitting := false;
    }
  }
}
