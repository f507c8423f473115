/** The state-changing operations of the users service: createUser,
    findOrCreateUser, changeUserRole, updateUserPassword and deleteUser, as
    methods on the database, with the last-admin guard two of them share. */
module UsersService {
  import opened Seqs
  import opened Text
  import opened Schema
  import opened Store
  import opened UserQueries

  /** The length of the password findOrCreateUser generates. */
  const GeneratedPasswordLength: nat := 20

  /** The `user` argument of createUser; an absent field is None. */
  datatype NewUser = NewUser(
    email: Option<string>,
    name: Option<string>,
    password: Option<string>,
    role: Option<string>,
    bio: Option<string>,
    company: Option<string>,
    avatar: Option<string>,
    verified: bool)

  /** `!user.email?.length`. */
  predicate EmailMissing(u: NewUser) {
    u.email.None? || u.email.value == ""
  }

  /** `!user.name`. */
  predicate NameMissing(u: NewUser) {
    u.name.None? || u.name.value == ""
  }

  /** A non-empty password shorter than the minimum. */
  predicate PasswordTooShortFor(u: NewUser) {
    u.password.Some? && u.password.value != "" && |u.password.value| < MinimumPasswordLength
  }

  /** Every check of createUser passes for this input and this generated id. */
  predicate Creatable(s: Snapshot, u: NewUser, newId: UserId) {
    && !EmailMissing(u)
    && !NameMissing(u)
    && !PasswordTooShortFor(u)
    && !AddressInUse(s.emails, u.email.value)
    && newId !in s.users
  }

  /** `expectedRole`: the requested role, when it names a server role that the
      guest-mode setting allows. */
  function RequestedRole(role: Option<string>, guestModeEnabled: bool): (r: Option<ServerRole>)
    ensures r.Some? ==> role == Some(RoleName(r.value)) && (r.value != Guest || guestModeEnabled)
    ensures r.None? ==> forall x: ServerRole :: role == Some(RoleName(x)) ==> x == Guest && !guestModeEnabled
  {
    if role.None? || role.value == "" then None
    else match ParseRole(role.value)
      case None => None
      case Some(x) => if x == Guest && !guestModeEnabled then None else Some(x)
  }

  /** The role createUser grants: Admin to the first user of a server without
      admins, else the requested role if allowed, else User. */
  function InitialRole(acl: map<UserId, ServerRole>, role: Option<string>, guestModeEnabled: bool): (r: ServerRole)
    ensures AdminCount(acl) == 0 ==> r == Admin
    ensures AdminCount(acl) > 0 ==> forall x: ServerRole ::
      role == Some(RoleName(x)) && (x != Guest || guestModeEnabled) ==> r == x
    ensures AdminCount(acl) > 0 && (forall x: ServerRole :: role == Some(RoleName(x)) ==> x == Guest && !guestModeEnabled) ==>
      r == User
  {
    if AdminCount(acl) == 0 then Admin
    else match RequestedRole(role, guestModeEnabled)
      case Some(x) => x
      case None => User
  }

  /** The users row createUser inserts: the fields `pick` keeps, the address
      lower-cased, and a digest in place of the password. */
  function NewRow(u: NewUser, newId: UserId, now: int, hash: string -> string): UserRow
    requires u.email.Some? && u.name.Some?
  {
    UserRow(newId, u.name.value, u.bio, u.company, None, Lower(u.email.value), u.verified,
      if u.password.Some? && u.password.value != "" then Some(hash(u.password.value)) else None,
      now)
  }

  /** The primary email record createUser files for the new user. */
  function FirstEmail(next: EmailId, newId: UserId, u: NewUser): EmailRecord
    requires u.email.Some?
  {
    EmailRecord(next, newId, Lower(u.email.value), true, u.verified)
  }

  /** The tables after adding a user with its ACL row and its first email record. */
  function WithNewUser(s: Snapshot, row: UserRow, role: ServerRole, record: EmailRecord): Snapshot {
    Snapshot(s.users[row.id := row], s.order + [row.id], s.acl[row.id := role], s.emails + [record])
  }

  /** A user added with a primary record can be found by any spelling of its
      address and by its id, and every user still has an email record. */
  lemma NewUserIsFound(s: Snapshot, row: UserRow, role: ServerRole, record: EmailRecord, spelling: string)
    requires EveryUserHasEmail(s)
    requires record.userId == row.id && record.primary && record.email == Lower(spelling)
    requires LedgerSound(s.emails + [record])
    ensures EveryUserHasEmail(WithNewUser(s, row, role, record))
    ensures FindPrimaryEmailForUser(s.emails + [record], Some(spelling), None) == Some(record)
    ensures GetUserByEmail(WithNewUser(s, row, role, record), spelling) == Some(View(row.id, row, Some(record)))
    ensures GetUserById(WithNewUser(s, row, role, record), row.id) == Some(View(row.id, row, Some(record)))
  {
    var t := WithNewUser(s, row, role, record);
    assert record in t.emails;
    forall u | u in t.users ensures HasEmail(t.emails, u) {
      if u != row.id {
        var e :| e in s.emails && e.userId == u;
        assert e in t.emails;
      }
    }
    LowerIsLowercase(spelling);
    FindPrimaryByAddress(t.emails, record, spelling);
    GetUserByIdPrimary(t, record);
  }

  /** The first check of createUser that fails for this input, if any: the
      address, the name, the password length, whether the address is taken,
      and (in the model only) whether the generated id is fresh. */
  function CreateCheck(s: Snapshot, input: NewUser, newId: UserId): (r: Option<Error>)
    ensures r.None? <==> Creatable(s, input, newId)
  {
    if EmailMissing(input) then Some(EmailRequired)
    else if NameMissing(input) then Some(NameRequired)
    else if PasswordTooShortFor(input) then Some(PasswordTooShort(MinimumPasswordLength))
    else if AddressInUse(s.emails, input.email.value) then Some(EmailTaken)
    else if newId in s.users then Some(DuplicateUserId)
    else None
  }

  /** A taken address is refused whatever its case, once the other fields pass. */
  lemma TakenAddressIsRefused(s: Snapshot, input: NewUser, newId: UserId, e: EmailRecord)
    requires !EmailMissing(input) && !NameMissing(input) && !PasswordTooShortFor(input)
    requires e in s.emails && Lower(e.email) == Lower(input.email.value)
    ensures CreateCheck(s, input, newId) == Some(EmailTaken)
  {
  }

  /** The inserts of createUser once its checks have passed: the users row,
      the ACL row, then the primary email record through createUserEmail. */
  method InsertUser(db: Database, row: UserRow, role: ServerRole, email: string, verified: bool)
    returns (record: EmailRecord)
    requires db.Valid()
    requires row.id !in db.users && !AddressInUse(db.emails, email)
    modifies db`users, db`order, db`acl, db`emails, db`nextEmailId
    ensures db.Valid()
    ensures record == EmailRecord(old(db.nextEmailId), row.id, Lower(email), true, verified)
    ensures db.Tables() == WithNewUser(old(db.Tables()), row, role, record)
    ensures db.nextEmailId == old(db.nextEmailId) + 1
  {
    ghost var before := db.Tables();
    AddUserConsistent(before, row, role);
    db.users, db.order, db.acl := db.users[row.id := row], db.order + [row.id], db.acl[row.id := role];
    assert db.Tables() == Snapshot(before.users[row.id := row], before.order + [row.id], before.acl[row.id := role], before.emails);
    assert !HasPrimary(db.emails, row.id);
    var created := db.CreateUserEmail(row.id, email, true, verified);
    assert created.Success?;
    record := created.value;
    assert db.Tables() == WithNewUser(before, row, role, record);
    NewUserIsFound(before, row, role, record, email);
  }

  /** `createUser`: runs its checks in order before writing anything; then
      inserts the users row, the ACL row and the primary email record.
      `newId` is the generated id, `now` the creation time and `hash` the
      password hash. */
  method CreateUser(db: Database, input: NewUser, guestModeEnabled: bool, newId: UserId, now: int, hash: string -> string)
    returns (r: Result<UserId, Error>)
    requires db.Valid()
    modifies db`users, db`order, db`acl, db`emails, db`nextEmailId
    ensures db.Valid()
    ensures r.Failure? <==> CreateCheck(old(db.Tables()), input, newId).Some?
    ensures r.Failure? ==>
      && Some(r.error) == CreateCheck(old(db.Tables()), input, newId)
      && db.Tables() == old(db.Tables()) && db.nextEmailId == old(db.nextEmailId)
    ensures r.Success? ==>
      && r.value == newId
      && db.Tables() == WithNewUser(old(db.Tables()), NewRow(input, newId, now, hash),
                                    InitialRole(old(db.acl), input.role, guestModeEnabled),
                                    FirstEmail(old(db.nextEmailId), newId, input))
      && db.nextEmailId == old(db.nextEmailId) + 1
    ensures r.Success? ==> AdminCount(db.acl) >= 1
  {
    if input.email.None? || input.email.value == "" {
      return Failure(EmailRequired);
    }
    var expectedRole := RequestedRole(input.role, guestModeEnabled);
    var email := Lower(input.email.value);
    if input.name.None? || input.name.value == "" {
      return Failure(NameRequired);
    }
    if input.password.Some? && input.password.value != "" && |input.password.value| < MinimumPasswordLength {
      return Failure(PasswordTooShort(MinimumPasswordLength));
    }
    LowerIsLowercase(input.email.value);
    if FindEmail(db.emails, EmailQuery(None, Some(email), None, None)).Some? {
      return Failure(EmailTaken);
    }
    if newId in db.users {
      return Failure(DuplicateUserId);
    }
    var row := NewRow(input, newId, now, hash);
    var role := if AdminCount(db.acl) == 0 then Admin else if expectedRole.Some? then expectedRole.value else User;
    var record := InsertUser(db, row, role, email, input.verified);
    r := Success(newId);
    NewAdminCount(old(db.acl), newId, role);
  }

  /** Adding a user keeps an admin, and adds the first one to a server without. */
  lemma NewAdminCount(acl: map<UserId, ServerRole>, newId: UserId, role: ServerRole)
    requires newId !in acl
    requires AdminCount(acl) == 0 ==> role == Admin
    ensures AdminCount(acl[newId := role]) >= 1
  {
    AdminsAfterSet(acl, newId, role);
    if role == Admin {
      assert newId in Admins(acl[newId := role]);
    } else {
      assert Admins(acl) - {newId} == Admins(acl);
    }
  }

  /** What findOrCreateUser returns: the user's id, an address, and whether
      the user was created by this call. */
  datatype Resolved = Resolved(id: UserId, email: string, isNewUser: bool)

  /** The input findOrCreateUser hands to createUser: a generated password and
      a verified address, since the identity provider vouched for it. */
  function Trusted(user: NewUser, password: string): NewUser {
    user.(password := Some(password), verified := true)
  }

  /** `findOrCreateUser`: the owner of the primary record holding the address,
      or else a user created with a generated password and a verified address. */
  method FindOrCreateUser(db: Database, user: NewUser, guestModeEnabled: bool, newId: UserId, now: int,
                          hash: string -> string, password: string)
    returns (r: Result<Resolved, Error>)
    requires db.Valid()
    requires user.email.Some?
    requires |password| == GeneratedPasswordLength
    modifies db`users, db`order, db`acl, db`emails, db`nextEmailId
    ensures db.Valid()
    ensures FindPrimaryEmailForUser(old(db.emails), user.email, None).Some? ==>
      && r == Success(Resolved(FindPrimaryEmailForUser(old(db.emails), user.email, None).value.userId,
                               FindPrimaryEmailForUser(old(db.emails), user.email, None).value.email, false))
      && db.Tables() == old(db.Tables()) && db.nextEmailId == old(db.nextEmailId)
    ensures FindPrimaryEmailForUser(old(db.emails), user.email, None).None? ==>
      && (r.Failure? ==> Some(r.error) == CreateCheck(old(db.Tables()), Trusted(user, password), newId))
      && (r.Failure? ==> db.Tables() == old(db.Tables()) && db.nextEmailId == old(db.nextEmailId))
      && (r.Success? <==> CreateCheck(old(db.Tables()), Trusted(user, password), newId).None?)
      && (r.Success? ==> r.value == Resolved(newId, user.email.value, true))
      && (r.Success? ==> db.Tables() == WithNewUser(old(db.Tables()), NewRow(Trusted(user, password), newId, now, hash),
                                                    InitialRole(old(db.acl), user.role, guestModeEnabled),
                                                    FirstEmail(old(db.nextEmailId), newId, Trusted(user, password))))
    ensures r.Success? ==>
      && FindPrimaryEmailForUser(db.emails, user.email, None).Some?
      && FindPrimaryEmailForUser(db.emails, user.email, None).value.userId == r.value.id
  {
    var found := FindPrimaryEmailForUser(db.emails, user.email, None);
    if found.Some? {
      return Success(Resolved(found.value.userId, found.value.email, false));
    }
    var created := CreateUser(db, Trusted(user, password), guestModeEnabled, newId, now, hash);
    if created.Failure? {
      return Failure(created.error);
    }
    r := Success(Resolved(created.value, user.email.value, true));
    var record := FirstEmail(old(db.nextEmailId), newId, Trusted(user, password));
    assert db.emails[|db.emails| - 1] == record;
    FindPrimaryByAddress(db.emails, record, user.email.value);
  }

  /** An address held only as a secondary record of some user cannot be used
      to sign in through an identity provider: there is no primary record to
      find, and creating the user is refused because the address is taken. */
  lemma SecondaryAddressBlocksSignIn(s: Snapshot, user: NewUser, password: string, newId: UserId)
    requires user.email.Some? && |password| == GeneratedPasswordLength
    requires !EmailMissing(user) && !NameMissing(user)
    requires FindPrimaryEmailForUser(s.emails, user.email, None).None? && AddressInUse(s.emails, user.email.value)
    ensures CreateCheck(s, Trusted(user, password), newId) == Some(EmailTaken)
  {
  }

  /** Resolving the same new address twice creates the user at most once: the
      tables after the first call (`mid`) are the old ones or the old ones plus
      the new user, and the second call finds that user and changes nothing. */
  method ResolveTwice(db: Database, user: NewUser, guestModeEnabled: bool, firstId: UserId, secondId: UserId, now: int,
                      hash: string -> string, firstPassword: string, secondPassword: string)
    returns (first: Result<Resolved, Error>, second: Result<Resolved, Error>, ghost mid: Snapshot)
    requires db.Valid()
    requires user.email.Some?
    requires |firstPassword| == GeneratedPasswordLength && |secondPassword| == GeneratedPasswordLength
    modifies db`users, db`order, db`acl, db`emails, db`nextEmailId
    ensures db.Valid()
    ensures first.Success? ==>
      second.Success? && second.value.id == first.value.id && !second.value.isNewUser &&
      Lower(second.value.email) == Lower(user.email.value)
    ensures first.Success? ==> db.Tables() == mid
    ensures first.Success? && first.value.isNewUser ==> CreateCheck(old(db.Tables()), Trusted(user, firstPassword), firstId).None?
    ensures first.Success? && !first.value.isNewUser ==> mid == old(db.Tables())
    ensures first.Success? && first.value.isNewUser ==>
      mid == WithNewUser(old(db.Tables()), NewRow(Trusted(user, firstPassword), firstId, now, hash),
                         InitialRole(old(db.acl), user.role, guestModeEnabled),
                         FirstEmail(old(db.nextEmailId), firstId, Trusted(user, firstPassword)))
  {
    first := FindOrCreateUser(db, user, guestModeEnabled, firstId, now, hash, firstPassword);
    mid := db.Tables();
    second := FindOrCreateUser(db, user, guestModeEnabled, secondId, now, hash, secondPassword);
  }

  /** `_ensureAtleastOneAdminRemains`: fails exactly when the user is the only admin. */
  function LastAdminGuard(acl: map<UserId, ServerRole>, userId: UserId): (r: Outcome)
    ensures r.Fail? <==> IsSoleAdmin(acl, userId)
    ensures r.Fail? ==> r.error == LastAdmin
  {
    if IsSoleAdmin(acl, userId) then Fail(LastAdmin) else Pass
  }

  /** The guard refuses exactly when the user is the one and only admin. */
  lemma LastAdminGuardRefusesSoleAdmin(acl: map<UserId, ServerRole>, userId: UserId)
    ensures LastAdminGuard(acl, userId).Fail? <==> Admins(acl) == {userId}
  {
    SoleAdminIsOnlyAdmin(acl, userId);
  }

  /** `_changeUserRole`: updates the role of the user's ACL row, if it has one. */
  method SetServerRole(db: Database, userId: UserId, role: ServerRole)
    requires db.Valid()
    modifies db`acl
    ensures db.Valid()
    ensures db.acl == WithRole(old(db.acl), userId, role)
  {
    if userId in db.acl {
      db.acl := db.acl[userId := role];
    }
    assert db.Tables() == old(db.Tables()).(acl := db.acl) && db.nextEmailId == old(db.nextEmailId);
    WithRoleValid(old(db.Tables()), db.nextEmailId, userId, role);
  }

  /** Changing a role touches no other table and keeps the table constraints. */
  lemma WithRoleValid(s: Snapshot, next: nat, userId: UserId, role: ServerRole)
    requires Consistent(s) && IdsBelow(s.emails, next) && EveryUserHasEmail(s)
    ensures var t := s.(acl := WithRole(s.acl, userId, role));
      Consistent(t) && IdsBelow(t.emails, next) && EveryUserHasEmail(t)
  {
  }

  /** The role table after `_changeUserRole`. */
  function WithRole(acl: map<UserId, ServerRole>, userId: UserId, role: ServerRole): map<UserId, ServerRole> {
    if userId in acl then acl[userId := role] else acl
  }

  /** A role change the guard lets through leaves an admin, and demoting an
      admin takes exactly one away. */
  lemma RoleChangeKeepsAnAdmin(acl: map<UserId, ServerRole>, userId: UserId, role: ServerRole)
    requires role == Admin || !IsSoleAdmin(acl, userId)
    ensures AdminCount(acl) >= 1 ==> AdminCount(WithRole(acl, userId, role)) >= 1
    ensures (userId in acl && acl[userId] == Admin && role != Admin) ==>
      AdminCount(WithRole(acl, userId, role)) == AdminCount(acl) - 1
  {
    if userId in acl {
      if role == Admin {
        AdminsAfterSet(acl, userId, role);
        SubsetCard(Admins(acl), Admins(acl[userId := role]));
      } else {
        if acl[userId] == Admin {
          assert userId in Admins(acl);
        }
        if AdminCount(acl) >= 1 {
          DemotionKeepsAnAdmin(acl, userId, role);
        }
      }
    }
  }

  /** `changeUserRole`: rejects an unknown role, then Guest while guest mode is
      off, then taking Admin from the only admin; otherwise sets the role. */
  method ChangeUserRole(db: Database, userId: UserId, role: string, guestModeEnabled: bool) returns (r: Outcome)
    requires db.Valid()
    modifies db`acl
    ensures db.Valid()
    ensures ParseRole(role).None? ==> r == Fail(InvalidRole(role))
    ensures (ParseRole(role) == Some(Guest) && !guestModeEnabled) ==> r == Fail(GuestRoleDisabled)
    ensures (ParseRole(role).Some? && !(ParseRole(role) == Some(Guest) && !guestModeEnabled) &&
             ParseRole(role).value != Admin && IsSoleAdmin(old(db.acl), userId)) ==> r == Fail(LastAdmin)
    ensures r.Pass? <==>
      && ParseRole(role).Some?
      && !(ParseRole(role) == Some(Guest) && !guestModeEnabled)
      && !(ParseRole(role).value != Admin && IsSoleAdmin(old(db.acl), userId))
    ensures r.Fail? ==> db.acl == old(db.acl)
    ensures r.Pass? ==> db.acl == WithRole(old(db.acl), userId, ParseRole(role).value)
    ensures AdminCount(old(db.acl)) >= 1 ==> AdminCount(db.acl) >= 1
    ensures (r.Pass? && userId in old(db.acl) && old(db.acl)[userId] == Admin && ParseRole(role).value != Admin) ==>
      AdminCount(db.acl) == AdminCount(old(db.acl)) - 1
  {
    var parsed := ParseRole(role);
    if parsed.None? {
      return Fail(InvalidRole(role));
    }
    var target := parsed.value;
    if !guestModeEnabled && target == Guest {
      return Fail(GuestRoleDisabled);
    }
    if target != Admin {
      var guard := LastAdminGuard(db.acl, userId);
      if guard.Fail? {
        return guard;
      }
    }
    SetServerRole(db, userId, target);
    r := Pass;
    RoleChangeKeepsAnAdmin(old(db.acl), userId, target);
  }

  /** `updateUserPassword`: rejects a short password, else stores its digest
      on the user's row, if there is one. */
  method UpdateUserPassword(db: Database, id: UserId, newPassword: string, hash: string -> string) returns (r: Outcome)
    requires db.Valid()
    modifies db`users
    ensures db.Valid()
    ensures |newPassword| < MinimumPasswordLength ==>
      r == Fail(PasswordTooShort(MinimumPasswordLength)) && db.users == old(db.users)
    ensures |newPassword| >= MinimumPasswordLength ==>
      && r == Pass
      && db.users == if id in old(db.users) then old(db.users)[id := old(db.users)[id].(passwordDigest := Some(hash(newPassword)))]
                     else old(db.users)
  {
    if |newPassword| < MinimumPasswordLength {
      return Fail(PasswordTooShort(MinimumPasswordLength));
    }
    var digest := hash(newPassword);
    if id in db.users {
      db.users := db.users[id := db.users[id].(passwordDigest := Some(digest))];
    }
    r := Pass;
  }

  /** The owners of a stream. */
  function Owners(acl: map<UserId, StreamRole>): set<UserId> {
    set u | u in acl && acl[u] == Owner
  }

  /** The user owns the stream and no one else does: the inner query picks
      the user's owned streams, the outer one keeps those with one owner. */
  predicate SoleOwner(acl: map<UserId, StreamRole>, userId: UserId) {
    userId in acl && acl[userId] == Owner && |Owners(acl)| == 1
  }

  /** The streams the user is the only owner of. */
  function SoleOwnedStreams(streams: map<StreamId, map<UserId, StreamRole>>, userId: UserId): set<StreamId> {
    set sid | sid in streams && SoleOwner(streams[sid], userId)
  }

  /** Every stream ACL without the user's row (its foreign key cascades). */
  function WithoutMember(streams: map<StreamId, map<UserId, StreamRole>>, userId: UserId): map<StreamId, map<UserId, StreamRole>> {
    map sid | sid in streams :: streams[sid] - {userId}
  }

  /** The invites that do not refer to the user. */
  function InvitesWithout(invites: seq<Invite>, userId: UserId): seq<Invite> {
    Filter(invites, (i: Invite) => i.userId != userId)
  }

  /** `deleteStream`, reduced to what user deletion relies on: the stream and
      its ACL are gone. */
  method DeleteStream(db: Database, streamId: StreamId)
    modifies db`streams
    ensures db.streams == old(db.streams) - {streamId}
  {
    db.streams := db.streams - {streamId};
  }

  /** `deleteAllUserInvites`: every invite that refers to the user is gone. */
  method DeleteAllUserInvites(db: Database, userId: UserId)
    modifies db`invites
    ensures db.invites == InvitesWithout(old(db.invites), userId)
  {
    db.invites := InvitesWithout(db.invites, userId);
  }

  /** The tables after deleting a user: its row, its ACL row and its email
      records are gone. */
  function WithoutUserRows(s: Snapshot, id: UserId): Snapshot {
    Snapshot(s.users - {id}, OrderWithout(s.order, id), s.acl - {id}, WithoutUser(s.emails, id))
  }

  /** Deleting a user keeps the table constraints and the counter bound. */
  lemma WithoutUserRowsValid(s: Snapshot, next: EmailId, id: UserId)
    requires Consistent(s) && EveryUserHasEmail(s) && IdsBelow(s.emails, next)
    ensures Consistent(WithoutUserRows(s, id)) && EveryUserHasEmail(WithoutUserRows(s, id))
    ensures IdsBelow(WithoutUserRows(s, id).emails, next)
  {
    RemoveUserConsistent(s, id);
  }

  /** `Users().where({ id }).del()`: deletes the row and, through foreign keys,
      the user's ACL row, email records and stream roles; answers the number
      of rows deleted. */
  method DeleteUserRow(db: Database, id: UserId) returns (count: nat)
    requires db.Valid()
    modifies db`users, db`order, db`acl, db`emails, db`streams
    ensures db.Valid()
    ensures count == if id in old(db.users) then 1 else 0
    ensures db.Tables() == WithoutUserRows(old(db.Tables()), id)
    ensures db.streams == WithoutMember(old(db.streams), id)
  {
    count := if id in db.users then 1 else 0;
    RemoveUserRows(db, id);
    RemoveStreamMember(db, id);
  }

  /** The users row with the cascades into `server_acl` and `user_emails`. */
  method RemoveUserRows(db: Database, id: UserId)
    requires db.Valid()
    modifies db`users, db`order, db`acl, db`emails
    ensures db.Valid()
    ensures db.Tables() == WithoutUserRows(old(db.Tables()), id)
  {
    var t := WithoutUserRows(db.Tables(), id);
    WithoutUserRowsValid(db.Tables(), db.nextEmailId, id);
    db.users, db.order, db.acl, db.emails := t.users, t.order, t.acl, t.emails;
    assert db.Tables() == t && db.nextEmailId == old(db.nextEmailId);
  }

  /** The foreign-key cascade into `stream_acl`: the user loses every stream role. */
  method RemoveStreamMember(db: Database, id: UserId)
    modifies db`streams
    ensures db.streams == WithoutMember(old(db.streams), id)
  {
    db.streams := WithoutMember(db.streams, id);
  }

  /** A stream survives the deletion of the streams a user owns alone exactly
      when the user is not its only owner. */
  lemma SurvivingStreams(streams: map<StreamId, map<UserId, StreamRole>>, id: UserId)
    ensures forall sid | sid in streams ::
      sid in WithoutMember(streams - SoleOwnedStreams(streams, id), id) <==> Owners(streams[sid]) != {id}
  {
    forall sid | sid in streams
      ensures SoleOwner(streams[sid], id) <==> Owners(streams[sid]) == {id}
    {
      SingletonIff(Owners(streams[sid]), id);
    }
  }

  /** Deleting a user who is not the sole admin leaves an admin. */
  lemma RemovalKeepsAnAdmin(acl: map<UserId, ServerRole>, id: UserId)
    requires !IsSoleAdmin(acl, id)
    ensures AdminCount(acl) >= 1 ==> AdminCount(acl - {id}) >= 1
  {
    if AdminCount(acl) >= 1 {
      DemotionKeepsAnAdmin(acl, id, User);
    }
  }

  /** The loop of deleteUser over the streams the user owns alone, deleting
      each one. */
  method DeleteSoleOwnedStreams(db: Database, id: UserId)
    modifies db`streams
    ensures db.streams == old(db.streams) - SoleOwnedStreams(old(db.streams), id)
  {
    var sole := SoleOwnedStreams(db.streams, id);
    var todo, done := sole, {};
    while todo != {}
      invariant todo + done == sole && todo !! done
      invariant db.streams == old(db.streams) - done
      decreases |todo|
    {
      var sid :| sid in todo;
      DeleteStream(db, sid);
      RemoveOneMore(old(db.streams), done, sid);
      todo, done := todo - {sid}, done + {sid};
    }
  }

  /** The deletions of deleteUser once its guard has passed: the streams the
      user owns alone, then the user's invites, then the user. */
  method DeleteUserData(db: Database, id: UserId) returns (count: nat)
    requires db.Valid()
    modifies db`users, db`order, db`acl, db`emails, db`streams, db`invites
    ensures db.Valid()
    ensures count == if id in old(db.users) then 1 else 0
    ensures db.streams == WithoutMember(old(db.streams) - SoleOwnedStreams(old(db.streams), id), id)
    ensures db.invites == InvitesWithout(old(db.invites), id)
    ensures db.Tables() == WithoutUserRows(old(db.Tables()), id)
  {
    ghost var before := db.Tables();
    DeleteSoleOwnedStreams(db, id);
    DeleteAllUserInvites(db, id);
    assert db.Tables() == before;
    count := DeleteUserRow(db, id);
  }

  /** `deleteUser`: refuses to delete the only admin; otherwise deletes the
      streams the user owns alone, then the user's invites, then the user. */
  method DeleteUser(db: Database, id: UserId) returns (r: Result<nat, Error>)
    requires db.Valid()
    modifies db`users, db`order, db`acl, db`emails, db`streams, db`invites
    ensures db.Valid()
    ensures IsSoleAdmin(old(db.acl), id) ==>
      && r == Failure(LastAdmin)
      && db.Tables() == old(db.Tables()) && db.streams == old(db.streams) && db.invites == old(db.invites)
    ensures !IsSoleAdmin(old(db.acl), id) ==> r == Success(if id in old(db.users) then 1 else 0)
    ensures r.Success? ==>
      && db.streams == WithoutMember(old(db.streams) - SoleOwnedStreams(old(db.streams), id), id)
      && db.invites == InvitesWithout(old(db.invites), id)
      && db.Tables() == WithoutUserRows(old(db.Tables()), id)
    ensures r.Success? ==> forall sid | sid in old(db.streams) :: sid in db.streams <==> Owners(old(db.streams)[sid]) != {id}
    ensures AdminCount(old(db.acl)) >= 1 ==> AdminCount(db.acl) >= 1
  {
    var guard := LastAdminGuard(db.acl, id);
    if guard.Fail? {
      return Failure(LastAdmin);
    }
    var count := DeleteUserData(db, id);
    r := Success(count);
    SurvivingStreams(old(db.streams), id);
    RemovalKeepsAnAdmin(old(db.acl), id);
  }
}
