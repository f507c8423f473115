# Speckle server user identity, modelled in Dafny

This project models the user-identity core of the Speckle server as a verified Dafny model. It covers:

- the users service (`createUser`, `findOrCreateUser`, the user queries, `changeUserRole`, `updateUserPassword`, `deleteUser`);
- the email ledger behind it (the `user_emails` table and its repository operations).

The database is one object, `Store.Database`. It holds:

- the `users` table;
- the `server_acl` table (a user's server role);
- the `user_emails` ledger;
- a counter for email record ids;
- the stream ACLs and the server invites that user deletion clears.

The model is split into modules:

- **Operations that change state** are methods of `Store.Database` (the ledger operations) or methods over a `Database` (`UsersService`). Each one states its whole new state.
- **Read-only queries** (`UserQueries`) are functions of a `Schema.Snapshot` of the tables.
- **Table constraints** are bundled in `Schema.Consistent`:
  - the users, their id list and the ACL agree;
  - every email record belongs to a user;
  - no two records share an id or a case-insensitive address;
  - no user has two primary records.

  Every database method keeps `Consistent`, together with the invariant that every user owns at least one email record (`Store.Database.Valid`).
- `EmailScenarios` replays the repository's email-ledger tests. The lemmas state each asserted outcome for every ledger. The methods run each test's calls on the database.

Foreign pieces are parameters of the operations:

- the generated user id (`newId`);
- the creation time (`now`);
- the password hash function (`hash`);
- the guest-mode setting (`guestModeEnabled`);
- the 20-character generated password of `findOrCreateUser`.

Lower-casing is ASCII case folding (`Text.Lower`). `ILIKE '%q%'` is a case-insensitive substring test (`Text.ILike`).

## Model

| member | source | states |
|---|---|---|
| Schema.ParseRole | packages/server/modules/core/services/users.js:76 | a name is accepted exactly when it is one of the four server role names, and yields the role it names |
| Schema.ParseRoleName | packages/server/modules/core/services/users.js:372 | every server role name is accepted as that role |
| Schema.AdminsFacts | packages/server/modules/core/services/users.js:45-48 | the admin count is at most the number of ACL rows, and is zero exactly when no row is Admin |
| Schema.SoleAdminIsOnlyAdmin | packages/server/modules/core/services/users.js:49-56 | the guard's condition (one admin row, and it is this user's) holds iff the set of admins is exactly {this user} |
| Schema.AdminsAfterSet | packages/server/modules/core/services/users.js:42-43 | setting one user's role changes the admin set in that user only |
| Schema.AdminsAfterRemove | packages/server/modules/core/services/users.js:320 | deleting a user's ACL row removes that user, and only it, from the admins |
| Schema.DemotionKeepsAnAdmin | packages/server/modules/core/services/users.js:49-56 | giving a non-admin role to a user who is not the sole admin, or deleting that user, leaves at least one admin; the count drops by exactly one when the user was an admin, and is unchanged otherwise |
| Schema.PrimaryIsUnique | packages/server/modules/core/tests/integration/userEmails.spec.ts:182-203 | in a sound ledger two primary records of one user are the same record |
| Schema.AddressIsUnique | packages/server/modules/core/services/users.js:104-107 | in a sound ledger two records whose addresses agree up to case are the same record |
| Schema.AddUserConsistent | packages/server/modules/core/services/users.js:109-117 | inserting a user row with a fresh id and its ACL row keeps every table constraint |
| Schema.RemoveUserConsistent | packages/server/modules/core/services/users.js:320 | deleting a user with its ACL row and email records keeps every table constraint, and every other user keeps an email record and a primary one |
| Text.LowerIsLowercase | packages/server/modules/core/services/users.js:89 | a lower-cased address has no upper-case letter, and lower-casing it again changes nothing |
| Text.ILikeCaseVariant | packages/server/modules/core/services/users.js:254 | a name ILIKE-matches any spelling of itself that differs only in case |
| Store.FindEmail | packages/server/modules/core/tests/integration/userEmails.spec.ts:282-288 | `findEmail` returns a record of the table meeting every criterion given (address compared case-insensitively), and nothing exactly when no record does |
| Store.FindEmailIgnoresCase | packages/server/modules/core/tests/integration/userEmails.spec.ts:282-288 | two lookups whose addresses differ only in case return the same record |
| Store.FindPrimaryEmailForUser | packages/server/modules/core/tests/integration/userEmails.spec.ts:320-329 | the result is a primary record with the asked address (up to case) and user; nothing exactly when no primary record matches |
| Store.FindPrimaryByAddress | packages/server/modules/core/services/users.js:141-144 | in a sound ledger any spelling of a primary record's address finds that very record |
| Store.Updated | packages/server/modules/core/tests/integration/userEmails.spec.ts:290-305 | an update keeps the record's id and user, and stores a new address lower-cased |
| Store.Database.CreateUserEmail | packages/server/modules/core/tests/integration/userEmails.spec.ts:182-203 | refuses a second primary record for a user ('A primary email already exists for this user'), then a taken address, then an unknown user, changing nothing; otherwise appends the record with the next id and the address lower-cased |
| Store.DeleteCheck | packages/server/modules/core/tests/integration/userEmails.spec.ts:57-97 | the checks of `deleteUserEmail` in order: the user has exactly one record ('Cannot delete last user email'), the user has no record with that id, that record is primary ('Cannot delete primary email'); success iff none applies, yielding the user's non-primary record with that id |
| Store.Database.DeleteUserEmail | packages/server/modules/core/tests/integration/userEmails.spec.ts:57-135 | fails exactly when `DeleteCheck` does, with its error and no change; otherwise answers true and removes exactly the records with that id; every user that had a record, or a primary record, still has one |
| Store.Promote | packages/server/modules/core/tests/integration/userEmails.spec.ts:138-180 | setting a primary rewrites only the `primary` flags, and only of the user's records: the chosen one on, the others off |
| Store.PromoteSound | packages/server/modules/core/tests/integration/userEmails.spec.ts:138-180 | setting a primary keeps the ledger sound, makes the chosen record the user's only primary, and takes no user's primary away |
| Store.Database.SetPrimaryUserEmail | packages/server/modules/core/tests/integration/userEmails.spec.ts:138-180 | a record id the user does not own fails with no change; otherwise answers true, the table becomes `Promote` of it, and the chosen record is the user's only primary |
| Store.UpdateCheck | packages/server/modules/core/tests/integration/userEmails.spec.ts:205-240 | the checks of `updateUserEmail` in order: making a record primary while the user has a primary ('A primary email already exists for this user'), no record of the user matching the selector, a new address held by another record; success iff none applies, yielding the selected record of the user |
| Store.ReplaceSound | packages/server/modules/core/tests/integration/userEmails.spec.ts:205-240 | an update that passes those checks keeps the ledger sound and every record's id and owner, and removes no primary unless it demotes one |
| Store.Database.UpdateUserEmail | packages/server/modules/core/tests/integration/userEmails.spec.ts:290-305 | fails exactly when `UpdateCheck` does, with its error and no change; otherwise returns the updated record (address lower-cased) and replaces only the selected record |
| Store.MarkVerified | packages/server/modules/core/tests/integration/userEmails.spec.ts:41-55 | marking an address verified sets `verified` on exactly the records holding it (up to case) and changes nothing else |
| Store.MarkVerifiedSound | packages/server/modules/core/tests/integration/userEmails.spec.ts:352-358 | marking keeps the ledger sound and every primary, and leaves every record holding the address verified |
| Store.Database.MarkUserAsVerified | packages/server/modules/core/tests/integration/userEmails.spec.ts:352-358 | answers whether any record holds the address (up to case); the table becomes `MarkVerified` of it, so every such record is verified |
| Store.DeleteSound | packages/server/modules/core/tests/integration/userEmails.spec.ts:99-135 | deleting a non-primary record of a user with two or more records keeps the ledger sound, removes no other record, and leaves every user its record and its primary record |
| Store.DeleteKeepsTables | packages/server/modules/core/tests/integration/userEmails.spec.ts:99-135 | a deletion `DeleteCheck` allows keeps the table constraints, every user's record and every user's primary record, and the deleted record is gone |
| Store.PromoteKeepsTables | packages/server/modules/core/tests/integration/userEmails.spec.ts:138-180 | setting a primary keeps the table constraints, every user's record and primary record |
| Store.DemotionLeavesNoPrimary | packages/server/modules/core/tests/integration/userEmails.spec.ts:205-240 | an update with `primary: false` on a user's only primary record passes the update checks and leaves that user with no primary record |
| Store.ReplaceKeepsTables | packages/server/modules/core/tests/integration/userEmails.spec.ts:205-240 | an allowed update keeps the table constraints and every user's record, and every primary unless it demotes one |
| Store.MarkVerifiedKeepsTables | packages/server/modules/core/tests/integration/userEmails.spec.ts:41-55 | marking verified keeps the table constraints, every user's record and primary record |
| UserQueries.GetUserById | packages/server/modules/core/services/users.js:160-174 | a user is found iff it exists and has a primary record, and is then shown with that record's address and verification; the view has no digest field. The deprecated `getUser` (users.js:177-191) runs the same query and is modelled by this member |
| UserQueries.GetUserByIdPrimary | packages/server/modules/core/services/users.js:160-174 | in a sound ledger the user found by id carries its one primary address |
| UserQueries.GetUserByEmail | packages/server/modules/core/services/users.js:194-209 | the result is the owner of a primary record whose address equals the query up to case; when every record's user exists, null exactly when no primary record holds the address |
| UserQueries.GetUserByEmailIgnoresCase | packages/server/modules/core/services/users.js:198 | queries that differ only in case return the same user |
| UserQueries.GetUserByEmailFindsOwner | packages/server/modules/core/services/users.js:194-209 | in a consistent snapshot any spelling of a primary address finds its owner with that record |
| UserQueries.GetUserRole | packages/server/modules/core/services/users.js:211-216 | the user's ACL role, and null exactly when the user has no ACL row |
| UserQueries.RowsOfFacts | packages/server/modules/core/services/users.js:244 | the left join gives a user one row per email record it owns, or one row without an email when it owns none, each with its row and role |
| UserQueries.GroupedSound | packages/server/modules/core/services/users.js:251 | each grouped row passed the filter and is a join row of a listed user |
| UserQueries.GroupedComplete | packages/server/modules/core/services/users.js:251 | every listed user with a passing row is grouped, with its first passing row |
| UserQueries.GroupedDistinct | packages/server/modules/core/services/users.js:251 | grouping lists no user twice |
| UserQueries.GroupedAgree | packages/server/modules/core/services/users.js:349 | filters that agree on every join row group the same users |
| UserQueries.SearchLimit | packages/server/modules/core/services/users.js:260-261 | an absent or zero limit means 25; any other limit is used as given, with no upper bound |
| UserQueries.PageFacts | packages/server/modules/core/services/users.js:258-267 | a page holds min(limit, matching users) users, newest first, each a grouped match; the cursor is the last user's `createdAt`, and null exactly when the page is empty |
| UserQueries.PageComplete | packages/server/modules/core/services/users.js:258-262 | a grouped match missing from the page is no newer than the last user of a full page: the page is the newest matches |
| UserQueries.PageDistinct | packages/server/modules/core/services/users.js:251-262 | over distinct user ids, no user is on the page twice |
| UserQueries.PageHasEveryUser | packages/server/modules/core/services/users.js:249-262 | every listed user with a passing join row is on the page, unless the page is full and the user is no newer than its last user |
| UserQueries.SearchPageSound | packages/server/modules/core/services/users.js:252-258 | every user of a corrected search page has an ACL row, is unarchived unless `archived`, is older than the cursor, and holds the address exactly or (unless `emailOnly`) has a name ILIKE-matching the query |
| UserQueries.SearchUsersAsWritten | packages/server/modules/core/services/users.js:238-268 | the search as the code composes its filter: at most the limit, newest first, the cursor from the last user and null exactly on an empty page; every user is a grouped row passing that filter; every listed user with a passing row is on the page unless the page is full and the user is no newer than its last user; over distinct ids, no user twice |
| UserQueries.SearchUsers | packages/server/modules/core/services/users.js:238-268 | the corrected search: at most the limit, newest first, the cursor from the last user; every user a hit of the corrected filter; every listed user with a passing row is on the page unless the page is full and the user is no newer than its last user; over distinct ids, no user twice |
| UserQueries.ArchivedUserFoundByAddress | packages/server/modules/core/services/users.js:252-256 | on a server whose only user is archived, searching its exact address without `archived` returns it as written and not when corrected |
| UserQueries.ArchivedAnnFoundAsWritten | packages/server/modules/core/services/users.js:252-256 | as written, the archived user's exact address puts that user on the page |
| UserQueries.ArchivedAnnHidden | packages/server/modules/core/services/users.js:252-256 | corrected, the archived user is not on the page |
| UserQueries.NobodyShownWhenAllArchived | packages/server/modules/core/services/users.js:252-256 | without `archived`, the corrected search returns nobody on a server whose every user is archived |
| UserQueries.UsersLimit | packages/server/modules/core/services/users.js:333-336 | the `getUsers` limit is 10 when absent and clamped to at most 200 |
| UserQueries.OldestFirstFacts | packages/server/modules/core/services/users.js:348-350 | the matching users, oldest first: as many views as grouped users, each the view of a grouped match, every grouped match's view present, and over distinct ids none twice |
| UserQueries.OldestFirstSorted | packages/server/modules/core/services/users.js:350 | the listing runs oldest first |
| UserQueries.OldestFirstSound | packages/server/modules/core/services/users.js:348-350 | every listed view is the view of a grouped match |
| UserQueries.OldestFirstComplete | packages/server/modules/core/services/users.js:348-350 | every grouped match's view is listed |
| UserQueries.OldestFirstDistinct | packages/server/modules/core/services/users.js:348-350 | over distinct user ids, no user is listed twice |
| UserQueries.GetUsers | packages/server/modules/core/services/users.js:333-353 | min(clamped limit, remaining) matching users, oldest first: the i-th is the (offset + i)-th of the full oldest-first listing, each the view of a grouped match, and over distinct ids none twice |
| UserQueries.GetUsersSound | packages/server/modules/core/services/users.js:338-348 | every returned user exists with its own name and creation time |
| UserQueries.GetUsersIgnoresCase | packages/server/modules/core/services/users.js:348 | queries that differ only in case return the same users |
| UserQueries.CountRows | packages/server/modules/core/services/users.js:360-369 | the count of passing join rows is at least the number of grouped users, and equal to it when no user has two email records |
| UserQueries.CountUsers | packages/server/modules/core/services/users.js:360-369 | `countUsers` counts at least the users `getUsers` would list, and exactly those when no user has two email records |
| UserQueries.CountRowsAgree | packages/server/modules/core/services/users.js:362-367 | filters that agree on every join row count the same rows |
| UserQueries.CountUsersIgnoresCase | packages/server/modules/core/tests/integration/userEmails.spec.ts:379-382 | queries that differ only in case give the same count |
| UserQueries.CountUsersCountsEmailRows | packages/server/modules/core/services/users.js:360-369 | a user with two addresses is counted twice by `countUsers` but listed once by `getUsers` |
| UsersService.RequestedRole | packages/server/modules/core/services/users.js:74-80 | the requested role is kept only when it names a server role and is not Guest with guest mode off |
| UsersService.InitialRole | packages/server/modules/core/services/users.js:112-115 | the first user of a server without admins is Admin; otherwise the requested role when allowed, else User |
| UsersService.CreateCheck | packages/server/modules/core/services/users.js:72-107 | createUser's checks in order (missing email, missing name, short non-empty password, taken address, then a taken id); none fails iff the input is creatable |
| UsersService.TakenAddressIsRefused | packages/server/modules/core/services/users.js:104-107 | an address already held, in any case, is refused with 'Email taken. Try logging in?' once the earlier checks pass |
| UsersService.NewUserIsFound | packages/server/modules/core/services/users.js:119-125 | a user created with a primary record is found by any spelling of its address and by its id, and every user still has an email record |
| UsersService.InsertUser | packages/server/modules/core/services/users.js:109-125 | inserts the users row, the ACL row and a primary email record with the lower-cased address and the next id, keeping every invariant |
| UsersService.CreateUser | packages/server/modules/core/services/users.js:68-130 | fails iff a check fails, with the first failing check's error and no change; otherwise returns the new id, adds exactly its row (lower-cased address, digest, no password), its ACL row with the initial role and one primary email record; afterwards there is an admin |
| UsersService.NewAdminCount | packages/server/modules/core/services/users.js:112-117 | after adding a user the server has an admin |
| UsersService.FindOrCreateUser | packages/server/modules/core/services/users.js:140-153 | with a primary record for the address: that record's user and address, `isNewUser` false, nothing changed; otherwise createUser's outcome on the input with the generated password and `verified`: its first failing check's error with the tables and the counter unchanged, or the new user with `isNewUser` true and exactly createUser's new tables; on success the address finds the user |
| UsersService.SecondaryAddressBlocksSignIn | packages/server/modules/core/services/users.js:140-153 | an address held only by a non-primary record finds no user and makes creation fail with 'Email taken' |
| UsersService.ResolveTwice | packages/server/modules/core/services/users.js:140-153 | after a successful first call, the tables are the old ones or, for a new user, the old ones plus exactly that user; a second call with the same address then returns the same user, not new, and leaves the tables as they were |
| UsersService.LastAdminGuard | packages/server/modules/core/services/users.js:49-56 | the guard fails, with 'Cannot remove the last admin role from the server', exactly when the user is the only admin |
| UsersService.LastAdminGuardRefusesSoleAdmin | packages/server/modules/core/services/users.js:49-56 | the guard fails iff the set of admins is exactly {this user} |
| UsersService.SetServerRole | packages/server/modules/core/services/users.js:42-43 | only this user's ACL row changes, to the new role, and only if it exists |
| UsersService.WithRoleValid | packages/server/modules/core/services/users.js:42-43 | a role change keeps every table constraint |
| UsersService.RoleChangeKeepsAnAdmin | packages/server/modules/core/services/users.js:371-378 | a role change the guard allows leaves an admin, and demoting an admin lowers the count by exactly one |
| UsersService.ChangeUserRole | packages/server/modules/core/services/users.js:371-378 | errors in order: 'Invalid role specified: …', 'Guest role is not enabled', then the last-admin guard for a non-Admin role; passes iff none applies, then changes only this user's role; an admin always remains |
| UsersService.UpdateUserPassword | packages/server/modules/core/services/users.js:228-233 | a password shorter than 8 is refused with no change; otherwise only this user's digest becomes the hash of the new password |
| UsersService.DeleteStream | packages/server/modules/core/services/users.js:313 | the stream and its ACL are gone, the other streams unchanged |
| UsersService.DeleteAllUserInvites | packages/server/modules/core/services/users.js:318 | exactly the invites that refer to the user are gone |
| UsersService.WithoutUserRowsValid | packages/server/modules/core/services/users.js:320 | deleting the user's rows keeps every table constraint and every other user's email record |
| UsersService.DeleteUserRow | packages/server/modules/core/services/users.js:320 | answers 1 if the user existed, else 0; the user's row, ACL row, email records and stream roles are gone and nothing else changes |
| UsersService.RemoveUserRows | packages/server/modules/core/services/users.js:320 | deletes the users row with its ACL row and email records, exactly the rows the cascade reaches, and keeps every invariant |
| UsersService.RemoveStreamMember | packages/server/modules/core/services/users.js:320 | the cascade into the stream ACLs: every stream keeps its roles except this user's, and no stream is added or dropped |
| UsersService.SurvivingStreams | packages/server/modules/core/services/users.js:291-311 | a stream survives deleting the streams the user owns alone iff its owners are not exactly {this user} |
| UsersService.RemovalKeepsAnAdmin | packages/server/modules/core/services/users.js:290 | deleting a user who is not the sole admin leaves an admin |
| UsersService.DeleteSoleOwnedStreams | packages/server/modules/core/services/users.js:291-314 | deletes exactly the streams where the user is the only owner |
| UsersService.DeleteUserData | packages/server/modules/core/services/users.js:312-320 | the sole-owned streams, then the user's invites, then the user's rows are gone; the count is 1 if the user existed |
| UsersService.DeleteUser | packages/server/modules/core/services/users.js:286-322 | the sole admin is refused with no change; otherwise deletes exactly the streams where the user is the only owner (streams with other owners survive), the user's invites and rows; an admin always remains |
| EmailScenarios.LastEmailIsKept | packages/server/modules/core/tests/integration/userEmails.spec.ts:58-73 | deleting a new user's only record fails with 'Cannot delete last user email' |
| EmailScenarios.PrimaryEmailIsKept | packages/server/modules/core/tests/integration/userEmails.spec.ts:75-97 | with a second record, deleting the primary one fails with 'Cannot delete primary email' |
| EmailScenarios.SecondEmailIsDeleted | packages/server/modules/core/tests/integration/userEmails.spec.ts:99-135 | deleting the second record succeeds, and the lookup of it by user, address and non-primary then finds nothing |
| EmailScenarios.PromotedRecords | packages/server/modules/core/tests/integration/userEmails.spec.ts:138-180 | after setting the second record primary, the user's records are the first (demoted) and the second (primary) |
| EmailScenarios.SecondEmailIsPromoted | packages/server/modules/core/tests/integration/userEmails.spec.ts:138-180 | after setting the second record primary, the non-primary lookup finds the demoted first and the primary lookup the second |
| EmailScenarios.SecondPrimaryIsRefused | packages/server/modules/core/tests/integration/userEmails.spec.ts:205-240 | updating the second record to primary fails with 'A primary email already exists for this user' |
| EmailScenarios.VerifiedAddressIsFound | packages/server/modules/core/tests/integration/userEmails.spec.ts:41-55 | after marking an address verified, looking it up finds a verified record |
| EmailScenarios.FindByAddress | packages/server/modules/core/tests/integration/userEmails.spec.ts:282-288 | a lookup naming a record's address in any case finds that record |
| EmailScenarios.SetUpUser | packages/server/modules/core/tests/integration/userEmails.spec.ts:43-49 | a created user owns exactly one new record, primary, with the lower-cased address |
| EmailScenarios.SetUpUserWithSecond | packages/server/modules/core/tests/integration/userEmails.spec.ts:101-112 | a created user with a second, non-primary record added |
| EmailScenarios.MarkVerifiedTest | packages/server/modules/core/tests/integration/userEmails.spec.ts:42-54 | after createUser and markUserAsVerified, findEmail finds a verified record |
| EmailScenarios.DeleteLastEmailTest | packages/server/modules/core/tests/integration/userEmails.spec.ts:58-73 | the test's deletion fails with 'Cannot delete last user email' |
| EmailScenarios.DeletePrimaryEmailTest | packages/server/modules/core/tests/integration/userEmails.spec.ts:75-97 | the test's deletion fails with 'Cannot delete primary email' |
| EmailScenarios.DeleteEmailTest | packages/server/modules/core/tests/integration/userEmails.spec.ts:99-135 | the deletion answers true and the later lookup finds nothing |
| EmailScenarios.SetPrimaryEmailTest | packages/server/modules/core/tests/integration/userEmails.spec.ts:139-180 | setting the primary answers true; the user's non-primary lookup finds a non-primary record and the primary lookup a primary one |
| EmailScenarios.SecondPrimaryEmailTest | packages/server/modules/core/tests/integration/userEmails.spec.ts:183-202 | creating a second primary record fails with 'A primary email already exists for this user' |
| EmailScenarios.UpdateToPrimaryTest | packages/server/modules/core/tests/integration/userEmails.spec.ts:206-239 | updating the second record to primary fails with 'A primary email already exists for this user' |

## Left out

- Store.Database.CreateUserEmail: the email repository is not part of this model, so its behaviour is the one its tests pin down. `primary` is an explicit argument here. createUser calls the repository without it, and later lookups need that record to be primary, so the model passes true. What the repository does with an omitted `primary` for a user who already has a primary record is not modelled.
- Store: the order of the ledger's checks where no test shows it is the model's choice:
  - createUserEmail: primary clash, then taken address, then unknown user;
  - updateUserEmail: primary clash, then missing record, then address clash;
  - deleteUserEmail: a user's last record, then a missing record.
- Store.Database.UpdateUserEmail: an update with `primary: false` may demote the user's only primary record (`Store.DemotionLeavesNoPrimary`). Neither the code nor its tests settle whether the repository refuses this. The model allows it, so `Valid` does not require every user to have a primary record. A user demoted this way drops out of getUserById and getUserByEmail, which only join primary records.
- UsersService.CreateUser:
  - the "Couldn't create user" path (an insert that returns no row) is not modelled;
  - `DuplicateUserId` is the model's stand-in for a primary-key clash of the generated id;
  - the generated id is the `newId` parameter.
- UsersService.CreateUser: the avatar is dropped, because `pick` removes it before `sanitizeImageUrl` could run. `sanitizeImageUrl` is not modelled.
- UsersService.CreateUser: the legacy `users.email` and `users.verified` columns are written at creation. Readers take both solely from the primary email record.
- UsersService.CreateUser mutates its argument:
  - `delete user.role` changes the caller's object;
  - with the `skipPropertyValidation` test-only path, so do the assignments that follow.

  Neither is modelled.
- UsersService.FindOrCreateUser: the address is not lower-cased before the lookup, as in the code. The lookup is case-insensitive anyway.
- UsersService.FindOrCreateUser: the code sets `password` and `verified` on the caller's user object before creating it. The model passes a new value (`Trusted`) and does not model the caller seeing the change.
- UsersService.DeleteSoleOwnedStreams: the code deletes the streams one row at a time, in the order the query returns them. The model picks them from a set, so the final state is stated and the order is not.
- UsersService.DeleteStream: reduced to removing the stream with its ACL. Its own internals are not modelled (commits, branches, objects, webhooks).
- UsersService.DeleteUserRow: the foreign-key cascades of the users row are modelled only for the ACL row, the email records and the stream roles.
- UserQueries.SearchUsers: `user_emails.email = q` compares the joined address exactly and case-sensitively, as the code does. `limit || 25` has no upper bound, unlike getUsers' 200. The cursor is the `createdAt` number rather than its ISO string.
- UserQueries: ILIKE wildcards (`%`, `_`) inside the query are taken literally, and case folding is ASCII only.
- UserQueries: the `array_agg(...)[1]` columns are the first passing join row in table order. SQL leaves that order unspecified.
- UserQueries.GetUsers: `getUsersBaseQuery` is not part of this model. Its filter is assumed to be name, company or address ILIKE the query. Only the address part is pinned down by the callers' tests (userEmails.spec.ts:368-382); the name and company parts are assumed.
- UserQueries.SearchUsers, UserQueries.GetUsers: rows with equal `createdAt` keep table order (a stable sort). SQL leaves the order of such ties unspecified.
- UserQueries.SearchUsers: the cursor is strict (`createdAt < cursor`), as in the code. A user that shares its `createdAt` with the last user of a full page, but did not fit on it, is skipped by the next page. The model keeps this behaviour and proves no claim about paging across ties.
- Schema, UserQueries: `Schema.MinimumPasswordLength` (8), the server role strings and the columns of `UserQueries.LimitedUser` are assumed. users.js imports them (`MINIMUM_PASSWORD_LENGTH`, `Roles`, `LIMITED_USER_FIELDS`) from files that are not part of this model.
- The users event emitter and the database logger are left out: they are notifications only.
- Concurrency: the check-then-insert of createUser and the count-then-insert of its role are modelled as one sequential step, with no claim against concurrent callers.
- The deprecated `getUser` repeats `getUserById`'s query word for word (users.js:177-191) and is modelled by `UserQueries.GetUserById`; it has no member of its own.
- The deprecated wrappers `updateUser` and `validatePasssword` delegate to code that is not part of this model.

## Findings

| source | as written | input that shows it | evidently intended | confidence | as-written member | corrected member |
|---|---|---|---|---|---|---|
| packages/server/modules/core/services/users.js:252-256 | the filter composes to `email = q OR name ILIKE q AND role <> archived`. AND binds tighter, so the archive exclusion guards only the name match | a server whose only user is archived, searched by that user's exact address with `archived` false | archived users are excluded from every match unless `archived` is set | not executed; follows from SQL operator precedence | UserQueries.SearchUsersAsWritten, UserQueries.ArchivedUserFoundByAddress | UserQueries.SearchUsers |
