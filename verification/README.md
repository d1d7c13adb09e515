# Echos content graph in Dafny

This project models the content graph of the Echos tool: posts, likes, tags,
post–tag links, comments and users. It covers the rules that read and change
that graph, and it proves properties of them:

- the keys, the unique like index and the delete behaviours that the database
  context declares;
- the post service (reading, author-only update and delete, like toggling);
- the tag service (ordered listing, lookup by id);
- the administration service (user listing, role change, user deletion,
  post deletion without an ownership check);
- the login page (promotion of configured administrators, the sign-in
  decision);
- the registration page (form rules, duplicate check, creation of a Member);
- the post-creation page (tag selection toggle, author assignment);
- the start-up seeding of roles, default users and default tags.

The database is the class `Data.EchosDb`. It has one sequence field per table,
and the Identity role table is a set of role names. A user's role membership
(the Identity user–role table) is the `roleNames` field of the `User` row.
`Snapshot()` bundles the tables into a `Tables` value. `Valid()` says the
snapshot is `Consistent`, meaning:

- every primary key, the composite PostTag key and the unique (PostId, UserId)
  like index hold;
- every foreign key points at an existing row, and every role a user is a
  member of is a row of the role table (the Identity user–role table's
  foreign key).

Every state-changing method keeps `Valid()`. Each one states its new snapshot
as a function of the old one, and lemmas about those functions prove what the
source promises. The page classes hold their own fields (`errorMessage`,
`isSubmitting`, `selectedTagIds`, …) and update them as the code-behind does.

Decisions that shape the model:

- **Time.** Timestamps (`DateTime.UtcNow` in the source) are `Time` parameters.
- **Keys.** A new integer key is one more than every key in use.
- **New user ids.** A new user id is a string no existing user has.
- **Identity verdicts.** Identity's verdicts are boolean parameters. This
  covers password hashing, the password policy, the outcome of `CreateAsync`
  and `DeleteAsync`, and the outcome of `PasswordSignInAsync`.
- **Foreign keys are enforced.** Inserting a post or a like whose post or user
  does not exist gives `Err(ForeignKeyViolation)`. In the source,
  `SaveChanges` throws there and the service re-throws.
- **Roles must exist.** `AddToRoleAsync` consults the role table. For a role
  it lacks, the model returns `Err(RoleNotFound(name))` after the writes that
  precede the call, as the thrown exception would leave them. Seeding creates
  "Leader" and "Member" but never "Admin", so promoting a configured
  administrator at login fails unless that role was created elsewhere.
- **User deletion.** Deleting a user cascades to the user's posts, and through
  them to those posts' links, likes and comments. The like→user and
  comment→author edges are `NoAction`. So while the user still has likes or
  comments on other users' posts, the database refuses the deletion, and the
  model returns `Err`.

Three behaviours of the code are worth stating outright, because a reader
might expect otherwise:

- **Admin demotion.** `ChangeUserRoleAsync` (`AdminService.cs:53-76`) only
  refuses Admin as the *new* role. It never checks the target's current
  role, so an Admin can be demoted.
- **No caller role.** `GetAllUsersAsync`, `ChangeUserRoleAsync`,
  `DeleteUserAsync` and `DeletePostAsync` (`AdminService.cs:28, 48, 88, 127`)
  take no caller, and none of them checks a caller's role.
- **No orphans.** The like→user and comment→author relationships are
  configured `NoAction` (`ApplicationDbContext.cs:64-75`). A deleted user's
  likes and comments on others' posts are therefore never orphaned: the
  database refuses such a deletion.

## Model

| member | source | states |
|---|---|---|
| Entities.RoleName | Genesis.Tools/Genesis.Echos/Genesis.Echos.Main/Services/AdminService.cs:73 | the role name of an enum value is one of "Member", "Leader", "Admin" |
| Entities.RoleNameInjective | Genesis.Tools/Genesis.Echos/Genesis.Echos.Main/Services/AdminService.cs:73 | two roles have the same role name exactly when they are the same role, so the role joined by name determines the role |
| Queries.Filter | Genesis.Tools/Genesis.Echos/Genesis.Echos.Main/Services/PostService.cs:166 | removal keeps exactly the rows that satisfy the condition, and never adds rows |
| Queries.FirstMatch | Genesis.Tools/Genesis.Echos/Genesis.Echos.Main/Services/PostService.cs:160-161 | FirstOrDefault returns a stored row that satisfies the predicate and is preceded by no row that does; it returns None exactly when no row does |
| Queries.KeyDeterminesRow | Genesis.Tools/Genesis.Echos/Genesis.Echos.Infrastructure/Data/ApplicationDbContext.cs:42-44 | under a unique key or index, two stored rows with the same key are the same row |
| Queries.FilterKeysUnique | Genesis.Tools/Genesis.Echos/Genesis.Echos.Infrastructure/Data/ApplicationDbContext.cs:25-26 | deleting rows never breaks a unique key |
| Queries.FilterDropsOneKey | Genesis.Tools/Genesis.Echos/Genesis.Echos.Main/Services/PostService.cs:166-167 | removing the rows of one present unique key removes exactly one row |
| Queries.FilterKeepsAll | Genesis.Tools/Genesis.Echos/Genesis.Echos.Main/Services/PostService.cs:166 | a removal that matches no row leaves the table as it was |
| Queries.NextKey | Genesis.Tools/Genesis.Echos/Genesis.Echos.Domain/Entities/Post.cs:7 | a generated key is positive and larger than every key in use |
| Queries.AppendKeysUnique | Genesis.Tools/Genesis.Echos/Genesis.Echos.Main/Services/PostService.cs:68-69 | inserting a row with an unused key keeps the key unique |
| Queries.FilterAppend | Genesis.Tools/Genesis.Echos/Genesis.Echos.Main/Services/PostService.cs:166-180 | a removal distributes over an insertion: removing from "table plus a row" is the removal from the table plus that row if it is kept |
| Queries.ReplaceByKeyRows | Genesis.Tools/Genesis.Echos/Genesis.Echos.Main/Services/PostService.cs:103-107 | after a write-back the table holds x exactly when some row carried its key, every row with another key, and nothing else; when no row carried the key the table is unchanged |
| Queries.ReplaceByKeyKeepsKeys | Genesis.Tools/Genesis.Echos/Genesis.Echos.Main/Services/AdminService.cs:72 | a write-back keeps the key set and key uniqueness; afterwards the table holds x and every row with another key, and nothing else |
| Queries.ReplaceByKeyTwice | Genesis.Tools/Genesis.Echos/Genesis.Echos.Main/Services/AdminService.cs:68-73 | of two successive write-backs of the same row, only the second remains |
| Queries.ReplaceByKeySame | Genesis.Tools/Genesis.Echos/Genesis.Echos.Main/Components/Pages/Account/Login.razor.cs:77-79 | writing back a stored row unchanged leaves the table as it was |
| Queries.ReplaceAppended | Genesis.Tools/Genesis.Echos/Genesis.Echos.Main/Components/Pages/Account/Register.razor.cs:62-67 | writing back the row just inserted replaces only that row |
| Ordering.Insert | Genesis.Tools/Genesis.Echos/Genesis.Echos.Main/Services/TagService.cs:28 | insertion adds exactly one occurrence of the row |
| Ordering.InsertSorted | Genesis.Tools/Genesis.Echos/Genesis.Echos.Main/Services/TagService.cs:28 | insertion into an ordered sequence keeps it ordered |
| Ordering.SortBy | Genesis.Tools/Genesis.Echos/Genesis.Echos.Main/Services/TagService.cs:28 | OrderBy returns a permutation of its input that is ordered by the key comparison |
| Ordering.StrLeTotal | Genesis.Tools/Genesis.Echos/Genesis.Echos.Main/Services/AdminService.cs:35 | any two strings are comparable in ordinal order |
| Ordering.StrLeTransitive | Genesis.Tools/Genesis.Echos/Genesis.Echos.Main/Services/AdminService.cs:35 | ordinal string order is transitive |
| Ordering.StrLeAntisymmetric | Genesis.Tools/Genesis.Echos/Genesis.Echos.Main/Services/TagService.cs:28 | two strings that each sort before the other are equal |
| Ordering.StrKeyIsTotalPreorder | Genesis.Tools/Genesis.Echos/Genesis.Echos.Main/Services/TagService.cs:28 | ordering rows by a string key is a total preorder |
| Data.DeletePostCascade | Genesis.Tools/Genesis.Echos/Genesis.Echos.Infrastructure/Data/ApplicationDbContext.cs:29-33 | deleting a post removes it and exactly its PostTags, Likes and Comments (also lines 53-61); users, tags and roles are untouched |
| Data.DeleteTagCascade | Genesis.Tools/Genesis.Echos/Genesis.Echos.Infrastructure/Data/ApplicationDbContext.cs:35-39 | deleting a tag removes it and exactly the PostTags that reference it; nothing else changes |
| Data.DeleteUserCascade | Genesis.Tools/Genesis.Echos/Genesis.Echos.Infrastructure/Data/ApplicationDbContext.cs:47-75 | deleting a user removes the user, its authored posts and those posts' PostTags, Likes and Comments; no Like or Comment is removed through the user edge (NoAction) |
| Data.DeletePostKeepsConsistency | Genesis.Tools/Genesis.Echos/Genesis.Echos.Infrastructure/Data/ApplicationDbContext.cs:29-61 | after a post cascade, every key and index still holds, and every remaining PostTag, Like and Comment references an existing post |
| Data.DeleteTagKeepsConsistency | Genesis.Tools/Genesis.Echos/Genesis.Echos.Infrastructure/Data/ApplicationDbContext.cs:35-39 | after a tag cascade, every key holds and every remaining PostTag references an existing tag |
| Data.DeleteUserKeepsConsistency | Genesis.Tools/Genesis.Echos/Genesis.Echos.Infrastructure/Data/ApplicationDbContext.cs:47-75 | a user deletion that NoAction does not block leaves every key and reference intact |
| Data.BlockedDeleteBreaksReferences | Genesis.Tools/Genesis.Echos/Genesis.Echos.Infrastructure/Data/ApplicationDbContext.cs:64-75 | when the user has a like or comment on someone else's post, the cascade alone would leave a dangling reference, so the database refuses |
| Data.UserById | Genesis.Tools/Genesis.Echos/Genesis.Echos.Main/Services/AdminService.cs:59-64 | FindByIdAsync returns the stored user with that id, or None exactly when no user has it |
| Data.FoldCase | Genesis.Tools/Genesis.Echos/Genesis.Echos.Main/Components/Pages/Account/Login.razor.cs:77 | the folded string has the same length and holds no lower-case ASCII letter |
| Data.FoldCharAgrees | Genesis.Tools/Genesis.Echos/Genesis.Echos.Main/Components/Pages/Account/Login.razor.cs:77 | two characters fold alike exactly when they are equal or are the two cases of one ASCII letter |
| Data.EqualsIgnoreCaseIff | Genesis.Tools/Genesis.Echos/Genesis.Echos.Main/Components/Pages/Account/Login.razor.cs:77 | two strings are equal ignoring case exactly when they have the same length and agree position by position up to the case of ASCII letters |
| Data.EqualsIgnoreCaseIsEquivalence | Genesis.Tools/Genesis.Echos/Genesis.Echos.Main/Components/Pages/Account/Login.razor.cs:77 | equality ignoring case is reflexive, symmetric and transitive |
| Data.UserByEmail | Genesis.Tools/Genesis.Echos/Genesis.Echos.Main/Components/Pages/Account/Login.razor.cs:39-44 | FindByEmailAsync returns a stored user whose e-mail equals the given one ignoring case, or None exactly when there is none |
| Data.FreshUserId | Genesis.Tools/Genesis.Echos/Genesis.Echos.Main/Components/Pages/Account/Register.razor.cs:53-62 | the id given to a new user is not used by any user |
| Data.ReplaceUserKeepsConsistency | Genesis.Tools/Genesis.Echos/Genesis.Echos.Main/Services/AdminService.cs:68-73 | writing back a user row under an existing id, whose roles are all in the role table, keeps every key and reference |
| Data.PostById | Genesis.Tools/Genesis.Echos/Genesis.Echos.Main/Services/PostService.cs:88-93 | FindAsync returns the stored post with that id, or None exactly when there is none |
| Data.ReplacePostKeepsConsistency | Genesis.Tools/Genesis.Echos/Genesis.Echos.Main/Services/PostService.cs:103-107 | writing back a post with its stored key and author keeps every key and reference |
| Data.EchosDb.constructor | Genesis.Tools/Genesis.Echos/Genesis.Echos.Infrastructure/Data/ApplicationDbContext.cs:14-18 | a new database is empty and consistent |
| Data.EchosDb.Store | Genesis.Tools/Genesis.Echos/Genesis.Echos.Main/Services/PostService.cs:107 | SaveChanges: the tables take the given consistent contents |
| Data.EchosDb.RemovePost | Genesis.Tools/Genesis.Echos/Genesis.Echos.Main/Services/PostService.cs:140-141 | removing a post applies the post cascade and keeps the store consistent |
| Data.EchosDb.RemoveUser | Genesis.Tools/Genesis.Echos/Genesis.Echos.Main/Services/AdminService.cs:106 | a user deletion is refused, changing nothing, exactly when NoAction blocks it; otherwise the user cascade applies |
| Data.EchosDb.CreateUser | Genesis.Tools/Genesis.Echos/Genesis.Echos.Main/Components/Pages/Account/Register.razor.cs:62 | CreateAsync stores the draft (whose roles, none in every caller, are in the role table) under a fresh id exactly when Identity accepts it, and changes nothing else |
| Data.EchosDb.UpdateUser | Genesis.Tools/Genesis.Echos/Genesis.Echos.Main/Services/AdminService.cs:72 | UpdateAsync writes the user row back; the set of user ids and every other table are unchanged |
| Data.EchosDb.AddToRole | Genesis.Tools/Genesis.Echos/Genesis.Echos.Main/Services/AdminService.cs:73 | AddToRoleAsync on a stored user throws, changing nothing, exactly when the role table lacks the role; a user already in the role is left alone; otherwise the user joins the role and its row is written back |
| Data.EchosDb.SwitchRole | Genesis.Tools/Genesis.Echos/Genesis.Echos.Main/Services/AdminService.cs:66-73 | the remove-roles, set-Role, add-role sequence gives Role role and role set exactly that role's name; when the role table lacks the role it throws after the first writes, leaving Role role and no role at all |
| Data.EchosDb.CreateUserInRole | Genesis.Tools/Genesis.Echos/Genesis.Echos.Main/Components/Pages/Account/Register.razor.cs:62-67 | a refused creation changes nothing; a created user joins the role, or, when the role table lacks it, stays stored without it and the role error is returned |
| Data.EchosDb.CreateRole | Genesis.Tools/Genesis.Echos/Genesis.Echos.Infrastructure/Data/DbInitializer.cs:19-26 | creating a role adds its name and changes nothing else |
| PostServices.FindLike | Genesis.Tools/Genesis.Echos/Genesis.Echos.Main/Services/PostService.cs:160-161 | the like found belongs to the (post, user) pair; None exactly when the pair is not liked |
| PostServices.RemoveLikeEffect | Genesis.Tools/Genesis.Echos/Genesis.Echos.Main/Services/PostService.cs:163-169 | removing an existing like removes exactly its pair and one row, and the pair is no longer liked |
| PostServices.AddLikeEffect | Genesis.Tools/Genesis.Echos/Genesis.Echos.Main/Services/PostService.cs:171-183 | adding a like for an unliked pair adds exactly that pair and one row, and the unique index still holds |
| PostServices.ToggleLikeFlips | Genesis.Tools/Genesis.Echos/Genesis.Echos.Main/Services/PostService.cs:160-183 | a toggle fails only on a missing post or user; otherwise it flips whether the pair is liked, changes the pair set by exactly that pair and the count by ±1, and changes no other table |
| PostServices.ToggleLikeTwice | Genesis.Tools/Genesis.Echos/Genesis.Echos.Main/Services/PostService.cs:160-183 | two toggles of the same pair restore the set of liked pairs; from an unliked pair they restore the store exactly |
| PostServices.PostService.GetAllPosts | Genesis.Tools/Genesis.Echos/Genesis.Echos.Main/Services/PostService.cs:25-29 | every post exactly once, ordered by CreatedAt descending |
| PostServices.PostService.GetPostById | Genesis.Tools/Genesis.Echos/Genesis.Echos.Main/Services/PostService.cs:45-51 | the post with that id, or None exactly when none exists |
| PostServices.PostService.CreatePost | Genesis.Tools/Genesis.Echos/Genesis.Echos.Main/Services/PostService.cs:63-72 | stamps CreatedAt and adds exactly one post, with a new id and the given author, leaving the other rows unchanged; with an unknown author it is refused and changes nothing |
| PostServices.PostService.UpdatePost | Genesis.Tools/Genesis.Echos/Genesis.Echos.Main/Services/PostService.cs:84-109 | false and no change for a missing post or a non-author; otherwise true, and only Title, Content and UpdatedAt of that post change |
| PostServices.PostService.DeletePost | Genesis.Tools/Genesis.Echos/Genesis.Echos.Main/Services/PostService.cs:121-144 | false and no change for a missing post or a non-author; otherwise true, and the post cascade applies |
| PostServices.PostService.ToggleLike | Genesis.Tools/Genesis.Echos/Genesis.Echos.Main/Services/PostService.cs:156-183 | false after removing an existing like, true after adding one; afterwards HasUserLiked answers the returned value |
| PostServices.PostService.HasUserLiked | Genesis.Tools/Genesis.Echos/Genesis.Echos.Main/Services/PostService.cs:196-201 | true exactly when a like for the pair exists |
| TagServices.GetAllTags | Genesis.Tools/Genesis.Echos/Genesis.Echos.Main/Services/TagService.cs:21-29 | a permutation of the tag table, ordered by Name; a function, so the table is not modified |
| TagServices.GetTagById | Genesis.Tools/Genesis.Echos/Genesis.Echos.Main/Services/TagService.cs:41-48 | the tag with that id, or None exactly when none exists; a function, so the table is not modified |
| TagServices.GetAllTagsStrictByName | Genesis.Tools/Genesis.Echos/Genesis.Echos.Main/Services/TagService.cs:28 | in the listing, tags with different names appear in strictly ascending name order |
| TagServices.TagByIdIffListed | Genesis.Tools/Genesis.Echos/Genesis.Echos.Main/Services/TagService.cs:27-48 | a tag is found by id exactly when the listing holds a tag with that id, and then the listing holds the tag found |
| AdminServices.WithRole | Genesis.Tools/Genesis.Echos/Genesis.Echos.Main/Services/AdminService.cs:66-73 | after a role change, the user's Role is the new role and its role set is exactly that role's name, which names no other role; the id and e-mail are kept |
| AdminServices.RoleSetNamesOneRole | Genesis.Tools/Genesis.Echos/Genesis.Echos.Main/Services/AdminService.cs:73 | the singleton role set of a role names that role and no other |
| AdminServices.AdminService.GetAllUsers | Genesis.Tools/Genesis.Echos/Genesis.Echos.Main/Services/AdminService.cs:28-36 | every user exactly once, ordered by Email |
| AdminServices.AdminService.ChangeUserRole | Genesis.Tools/Genesis.Echos/Genesis.Echos.Main/Services/AdminService.cs:48-76 | false and no change when the new role is Admin, or when the user is unknown; otherwise true, and only that user's row changes, to Role newRole with role set exactly {newRole}, whatever its current role; when the role table lacks newRole the error is re-thrown and the row is left with Role newRole and no role |
| AdminServices.AdminService.DeleteUser | Genesis.Tools/Genesis.Echos/Genesis.Echos.Main/Services/AdminService.cs:88-115 | false and no change for an unknown user, an Admin or a refusal by Identity; a database refusal is an error and changes nothing; true exactly when the user cascade was applied |
| AdminServices.AdminService.DeletePost | Genesis.Tools/Genesis.Echos/Genesis.Echos.Main/Services/AdminService.cs:127-144 | with no ownership check: false and no change for a missing post, otherwise true and the post cascade applies |
| LoginPage.Promoted | Genesis.Tools/Genesis.Echos/Genesis.Echos.Main/Components/Pages/Account/Login.razor.cs:74-89 | the promoted user is Admin exactly when it was Admin or its e-mail is listed ignoring case; a newly promoted user's role set is exactly {"Admin"}; an unpromoted user is unchanged; only Role and the role set can change |
| LoginPage.PromotedIdempotent | Genesis.Tools/Genesis.Echos/Genesis.Echos.Main/Components/Pages/Account/Login.razor.cs:79 | promoting twice is promoting once, and an Admin is left unchanged |
| LoginPage.Login.constructor | Genesis.Tools/Genesis.Echos/Genesis.Echos.Main/Components/Pages/Account/Login.razor.cs:19-20 | the page starts with no error and not submitting |
| LoginPage.Login.CheckAndPromoteToAdmin | Genesis.Tools/Genesis.Echos/Genesis.Echos.Main/Components/Pages/Account/Login.razor.cs:74-91 | the user's row becomes its promoted form and nothing else changes; when promotion is due and the role table has no "Admin" role it throws, leaving the row with Role Admin and no role |
| LoginPage.Login.HandleLogin | Genesis.Tools/Genesis.Echos/Genesis.Echos.Main/Components/Pages/Account/Login.razor.cs:30-72 | an unknown e-mail gives the invalid-credentials message with no promotion and no navigation; a known user is promoted before the password check whatever its outcome; a failed promotion shows the login-error prefix and the exception's message and skips the sign-in; a refused password gives the invalid-credentials message; success navigates to the return URL, or to "/posts" |
| RegisterPage.PropertyErrors | Genesis.Tools/Genesis.Echos/Genesis.Echos.Main/Components/Pages/Account/Register.razor.cs:96-106 | a property has no error exactly when its Required check and its other check hold, and has at most one error |
| RegisterPage.ValidationErrors | Genesis.Tools/Genesis.Echos/Genesis.Echos.Main/Components/Pages/Account/Register.razor.cs:94-107 | the form has no errors exactly when every annotation holds: e-mail required and well-formed, password required with length 8 to 100, confirmation required and equal |
| RegisterPage.AppendKeepsEmailsDistinct | Genesis.Tools/Genesis.Echos/Genesis.Echos.Main/Components/Pages/Account/Register.razor.cs:45-50 | adding a user whose e-mail FindByEmail does not find keeps all e-mails distinct ignoring case |
| RegisterPage.NewMember | Genesis.Tools/Genesis.Echos/Genesis.Echos.Main/Components/Pages/Account/Register.razor.cs:53-67 | a registered user has UserName = Email, EmailConfirmed, Role Member, role set {"Member"} and CreatedAt the given time |
| RegisterPage.Register.constructor | Genesis.Tools/Genesis.Echos/Genesis.Echos.Main/Components/Pages/Account/Register.razor.cs:18-20 | the page starts with no messages and not submitting |
| RegisterPage.Register.HandleRegister | Genesis.Tools/Genesis.Echos/Genesis.Echos.Main/Components/Pages/Account/Register.razor.cs:27-92 | differing passwords, then a taken e-mail, each set their error and create no user; a refused creation sets the joined Identity errors and adds no user or role; otherwise exactly one Member is added and the page goes to "/posts", except that without a "Member" role the user is added with no role and the registration-error prefix and the exception's message are shown; distinct e-mails stay distinct |
| CreatePostPage.RemoveFirst | Genesis.Tools/Genesis.Echos/Genesis.Echos.Main/Components/Pages/Posts/Create.razor.cs:73 | List.Remove removes one occurrence of a present id, keeping every other occurrence, and leaves a list without it unchanged |
| CreatePostPage.RemoveFirstAt | Genesis.Tools/Genesis.Echos/Genesis.Echos.Main/Components/Pages/Posts/Create.razor.cs:73 | removing an id whose first occurrence is at position i cuts exactly position i out of the list |
| CreatePostPage.RemoveFirstCutsFirst | Genesis.Tools/Genesis.Echos/Genesis.Echos.Main/Components/Pages/Posts/Create.razor.cs:73 | List.Remove drops the first occurrence of a present id and keeps the other ids in order |
| CreatePostPage.ToggleTagFlips | Genesis.Tools/Genesis.Echos/Genesis.Echos.Main/Components/Pages/Posts/Create.razor.cs:69-78 | membership of every other id is unchanged; on a duplicate-free selection the toggled id's membership flips and the selection stays duplicate-free |
| CreatePostPage.RemoveFirstDistinct | Genesis.Tools/Genesis.Echos/Genesis.Echos.Main/Components/Pages/Posts/Create.razor.cs:71-74 | removing a selected id from a duplicate-free selection removes it entirely and keeps the rest duplicate-free |
| CreatePostPage.ToggleTagTwice | Genesis.Tools/Genesis.Echos/Genesis.Echos.Main/Components/Pages/Posts/Create.razor.cs:69-78 | on a duplicate-free selection, two toggles of one id restore the selection as a collection and its membership, and restore it exactly when the id was not selected |
| CreatePostPage.RemoveFirstAppended | Genesis.Tools/Genesis.Echos/Genesis.Echos.Main/Components/Pages/Posts/Create.razor.cs:73-77 | removing an id just appended to a list without it gives back the list |
| CreatePostPage.Create.constructor | Genesis.Tools/Genesis.Echos/Genesis.Echos.Main/Components/Pages/Posts/Create.razor.cs:18-21 | the page starts with an empty selection, no error and not submitting |
| CreatePostPage.Create.ToggleTag | Genesis.Tools/Genesis.Echos/Genesis.Echos.Main/Components/Pages/Posts/Create.razor.cs:69-78 | the selection becomes its toggled form and stays duplicate-free |
| CreatePostPage.Create.HandleValidSubmit | Genesis.Tools/Genesis.Echos/Genesis.Echos.Main/Components/Pages/Posts/Create.razor.cs:28-61 | a missing or empty user id sets the error and creates no post; otherwise exactly one post is created, with the given title and content and the current user as its author, and the page goes to "/posts"; a refused creation sets the error with its prefix and changes nothing |
| Seeding.DefaultTags | Genesis.Tools/Genesis.Echos/Genesis.Echos.Infrastructure/Data/DbInitializer.cs:65-75 | five default tags with distinct ids, stamped with the given time |
| Seeding.SeedUser | Genesis.Tools/Genesis.Echos/Genesis.Echos.Infrastructure/Data/DbInitializer.cs:29-61 | a default user is added only if no user has its e-mail and Identity accepts it, with its e-mail as user name, the given role and exactly that role's name; when accepted, a user with the e-mail exists afterwards |
| Seeding.SeedUserKeepsConsistency | Genesis.Tools/Genesis.Echos/Genesis.Echos.Infrastructure/Data/DbInitializer.cs:29-61 | adding a default user keeps every key and reference |
| Seeding.DefaultTagsKeepConsistency | Genesis.Tools/Genesis.Echos/Genesis.Echos.Infrastructure/Data/DbInitializer.cs:65-75 | filling an empty tag table with the defaults keeps every key and reference |
| Seeding.SeedKeepsConsistency | Genesis.Tools/Genesis.Echos/Genesis.Echos.Infrastructure/Data/DbInitializer.cs:19-75 | seeding keeps the store consistent |
| Seeding.SeedEffect | Genesis.Tools/Genesis.Echos/Genesis.Echos.Infrastructure/Data/DbInitializer.cs:19-75 | afterwards "Leader" and "Member" are role names and "Admin" is neither added nor removed; existing users stay and at most two are added; tags are filled only when the table was empty; posts, links, likes and comments are untouched |
| Seeding.SeedUsersEffect | Genesis.Tools/Genesis.Echos/Genesis.Echos.Infrastructure/Data/DbInitializer.cs:28-62 | through the two default-user blocks the user table only grows, by at most two rows, and a created Leader survives the Member block |
| Seeding.SeedTwice | Genesis.Tools/Genesis.Echos/Genesis.Echos.Infrastructure/Data/DbInitializer.cs:19-75 | a second run adds no roles or tags, and adds no users once both default users exist |
| Seeding.SeedDefaultUser | Genesis.Tools/Genesis.Echos/Genesis.Echos.Infrastructure/Data/DbInitializer.cs:29-44 | one default-user block, run once its role exists, performs the guarded creation of SeedUser against the store |
| Seeding.Initialize | Genesis.Tools/Genesis.Echos/Genesis.Echos.Infrastructure/Data/DbInitializer.cs:10-76 | InitializeAsync leaves the store as Seed of the old store, and consistent |

## Left out

- EF Core and database I/O are left out: migrations, `Include`/`ThenInclude`
  eager loading and service scopes. Tables are in-memory sequences, and each
  operation is atomic.
- Logging is left out; a catch-log-rethrow block returns the error as `Err`.
  The storage failures modelled are the foreign-key refusal and Identity's
  exception for a role missing from the role table. Other exceptions (a lost
  connection, a concurrency conflict) are not, so the page handlers' catch
  blocks are reached only by those two. The `model == null` early return is
  left out too: the form model is always present.
- `Data.StoreErrorMessage` is EF Core's usual `DbUpdateException` text and
  Identity's "Role … does not exist." text with the upper-cased role name,
  not a provider's exact message. Identity's own source is not part of this
  model.
- Identity internals are left out: password hashing and policy, sign-in and
  cookies, the reasons behind `CreateAsync`/`DeleteAsync` failures, and
  normalised user names. They are boolean parameters.
- Data.EchosDb.CreateUser: Identity's unique-user-name check is not modelled.
  The e-mail uniqueness that registration keeps is stated as
  `RegisterPage.EmailsDistinct`, not as a store invariant, because seeding's
  e-mail test is modelled as exact equality.
- Data.UserByEmail returns the first user whose e-mail matches. Identity's
  store reads a single row and throws when two users share a normalized
  e-mail. Since the user name equals the e-mail and user names are unique,
  that state does not arise in the source, but the model does not exclude it.
- Case-insensitive comparison folds only the ASCII letters. Ordinal ordering
  of e-mails and tag names, and exact equality in seeding's `u.Email == …`
  test, stand for the database collation.
- Integer keys are one more than the largest key in use. A real identity
  column never reuses a deleted key. `Seeding.DefaultTags` numbers the default
  tags 1 to 5 for the same reason.
- The read-then-write race in `ToggleLikeAsync`, and any interleaving of
  requests, are out of scope.
- Navigation (`NavigateTo`, `forceLoad`), `Task.Delay`, the success message's
  display and the authentication-state provider are left out. The current
  user's id is a parameter.
- `RegisterPage.ValidationErrors`: `[EmailAddress]` is modelled as the single
  '@' rule. `char.IsWhiteSpace` is the Unicode space-separator set plus the
  control characters the .NET documentation lists.
- The post form's annotations (`Create.razor.cs:81-90`) and the login form's
  annotations are not modelled. `HandleValidSubmit` does not depend on them.
- `CreatePostPage.ToggleTagTwice` requires a duplicate-free selection. With a
  tag selected twice, two toggles would unselect it. The page's selection
  starts empty and `ToggleTag` keeps it duplicate-free, so this cannot happen
  there.
- The selected tag ids are not stored with a new post. The post service's
  `CreatePostAsync` takes only the post (`PostService.cs:63`).
- The admin post-list page calls a method that does not exist. The admin
  delete path is modelled as `AdminService.DeletePostAsync`.
- The UI-only code-behind files are not part of this model: the post list,
  detail and edit pages, logout, the admin pages' badge and display strings,
  and the like button's display counter.
- The MagicOnion/gRPC sample is not part of this model.
- `ImportanceLevel` is an abstract type. No rule of the core inspects its
  members.
