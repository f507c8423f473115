/** The tables of the user-identity core (users, server_acl, user_emails), their
    rows, the server roles, the errors the core raises, and the constraints the
    tables keep. */
module Schema {
  import opened Seqs
  import opened Text

  type UserId = string
  type StreamId = string
  type EmailId = nat

  /** MINIMUM_PASSWORD_LENGTH of the users management service. */
  const MinimumPasswordLength: nat := 8

  datatype Result<+T, +E> = Success(value: T) | Failure(error: E)

  /** The outcome of an operation that returns nothing but may throw. */
  datatype Outcome = Pass | Fail(error: Error)

  /** The server roles of `Roles.Server`. */
  datatype ServerRole = Admin | User | Guest | ArchivedUser

  function RoleName(role: ServerRole): string {
    match role
    case Admin => "server:admin"
    case User => "server:user"
    case Guest => "server:guest"
    case ArchivedUser => "server:archived-user"
  }

  /** `Object.values(Roles.Server).includes(name)`, returning the role named. */
  function ParseRole(name: string): (r: Option<ServerRole>)
    ensures r.Some? ==> RoleName(r.value) == name
    ensures r.None? ==> forall role: ServerRole :: RoleName(role) != name
  {
    if name == "server:admin" then Some(Admin)
    else if name == "server:user" then Some(User)
    else if name == "server:guest" then Some(Guest)
    else if name == "server:archived-user" then Some(ArchivedUser)
    else None
  }

  /** Every role name parses back to its role. */
  lemma ParseRoleName(role: ServerRole)
    ensures ParseRole(RoleName(role)) == Some(role)
  {
  }

  /** Roles on a stream (project); only Owner matters to user deletion. */
  datatype StreamRole = Owner | Contributor | Reviewer

  /** A row of the users table. `email` and `verified` are the legacy columns
      written at creation; readers take both from the primary email record. */
  datatype UserRow = UserRow(
    id: UserId,
    name: string,
    bio: Option<string>,
    company: Option<string>,
    avatar: Option<string>,
    email: string,
    verified: bool,
    passwordDigest: Option<string>,
    createdAt: int)

  /** A row of the user_emails table. */
  datatype EmailRecord = EmailRecord(
    id: EmailId,
    userId: UserId,
    email: string,
    primary: bool,
    verified: bool)

  /** A server invite, as far as user deletion sees it: the user it refers to. */
  datatype Invite = Invite(id: string, userId: UserId)

  datatype Error =
    | EmailRequired
    | NameRequired
    | PasswordTooShort(minimum: nat)
    | EmailTaken
    | DuplicateUserId
    | InvalidRole(role: string)
    | GuestRoleDisabled
    | LastAdmin
    | LastUserEmail
    | PrimaryEmailDelete
    | PrimaryEmailExists
    | EmailNotFound
    | EmailConflict
    | UnknownUser

  /** The message the source attaches to an error, where it states one. The
      others are a PasswordTooShortError, storage constraint violations and
      a record that does not belong to the caller. */
  function Message(e: Error): Option<string> {
    match e
    case EmailRequired => Some("E-mail address is required")
    case NameRequired => Some("User name is required")
    case EmailTaken => Some("Email taken. Try logging in?")
    case InvalidRole(role) => Some("Invalid role specified: " + role)
    case GuestRoleDisabled => Some("Guest role is not enabled")
    case LastAdmin => Some("Cannot remove the last admin role from the server")
    case LastUserEmail => Some("Cannot delete last user email")
    case PrimaryEmailDelete => Some("Cannot delete primary email")
    case PrimaryEmailExists => Some("A primary email already exists for this user")
    case _ => None
  }

  /** Two distinct email records never share an id or an address (compared
      case-insensitively), and are never both primary for one user. */
  predicate Compatible(a: EmailRecord, b: EmailRecord) {
    && a.id != b.id
    && Lower(a.email) != Lower(b.email)
    && !(a.primary && b.primary && a.userId == b.userId)
  }

  /** The uniqueness constraints of the ledger hold for every pair of records. */
  predicate LedgerSound(emails: seq<EmailRecord>) {
    Pairwise(emails, Compatible)
  }

  function EmailsOf(emails: seq<EmailRecord>, userId: UserId): (r: seq<EmailRecord>)
    ensures forall e :: e in r <==> e in emails && e.userId == userId
  {
    Filter(emails, (e: EmailRecord) => e.userId == userId)
  }

  predicate HasEmail(emails: seq<EmailRecord>, userId: UserId) {
    exists e | e in emails :: e.userId == userId
  }

  predicate HasPrimary(emails: seq<EmailRecord>, userId: UserId) {
    exists e | e in emails :: e.userId == userId && e.primary
  }

  /** The users whose server role is Admin. */
  function Admins(acl: map<UserId, ServerRole>): set<UserId> {
    set u | u in acl && acl[u] == Admin
  }

  /** `countAdminUsers`: the number of ACL rows whose role is Admin. */
  function AdminCount(acl: map<UserId, ServerRole>): nat {
    |Admins(acl)|
  }

  /** No more admins than ACL rows, and none exactly when no row is Admin. */
  lemma AdminsFacts(acl: map<UserId, ServerRole>)
    ensures |Admins(acl)| <= |acl|
    ensures Admins(acl) == {} <==> forall u | u in acl :: acl[u] != Admin
  {
    SubsetCard(Admins(acl), acl.Keys);
    if !forall u | u in acl :: acl[u] != Admin {
      var u :| u in acl && acl[u] == Admin;
      assert u in Admins(acl);
    }
  }

  /** A subset is no larger than its superset. */
  lemma {:induction false} SubsetCard<T>(a: set<T>, b: set<T>)
    requires a <= b
    ensures |a| <= |b|
    decreases |b|
  {
    if b != {} {
      var x :| x in b;
      SubsetCard(a - {x}, b - {x});
    }
  }

  /** `_ensureAtleastOneAdminRemains(userId)` throws: there is exactly one admin
      row and it belongs to `userId`. */
  predicate IsSoleAdmin(acl: map<UserId, ServerRole>, userId: UserId) {
    AdminCount(acl) == 1 && userId in acl && acl[userId] == Admin
  }

  /** A set of one element is exactly the set holding that element. */
  lemma SingletonIff<T>(s: set<T>, x: T)
    ensures (|s| == 1 && x in s) <==> s == {x}
  {
    if |s| == 1 && x in s {
      var others := s - {x};
      assert |others| == 0;
      assert others == {};
      assert s == others + {x};
    }
  }

  /** The guard names the user whom removing would leave the server without admins. */
  lemma SoleAdminIsOnlyAdmin(acl: map<UserId, ServerRole>, userId: UserId)
    ensures IsSoleAdmin(acl, userId) <==> Admins(acl) == {userId}
  {
    SingletonIff(Admins(acl), userId);
  }

  /** Setting one user's role changes the admin set in that user only. */
  lemma AdminsAfterSet(acl: map<UserId, ServerRole>, userId: UserId, role: ServerRole)
    ensures Admins(acl[userId := role]) == if role == Admin then Admins(acl) + {userId} else Admins(acl) - {userId}
  {
  }

  /** Removing one user's role removes that user from the admin set only. */
  lemma AdminsAfterRemove(acl: map<UserId, ServerRole>, userId: UserId)
    ensures Admins(acl - {userId}) == Admins(acl) - {userId}
  {
  }

  /** Removing Admin from a user who is not the sole admin leaves an admin,
      and takes exactly one away when the user was an admin. */
  lemma {:induction false} DemotionKeepsAnAdmin(acl: map<UserId, ServerRole>, userId: UserId, role: ServerRole)
    requires AdminCount(acl) >= 1 && !IsSoleAdmin(acl, userId) && role != Admin
    ensures AdminCount(acl[userId := role]) >= 1
    ensures AdminCount(acl - {userId}) >= 1
    ensures userId in acl && acl[userId] == Admin ==>
      AdminCount(acl[userId := role]) == AdminCount(acl) - 1 == AdminCount(acl - {userId})
    ensures !(userId in acl && acl[userId] == Admin) ==>
      AdminCount(acl[userId := role]) == AdminCount(acl) == AdminCount(acl - {userId})
  {
    AdminsAfterSet(acl, userId, role);
    AdminsAfterRemove(acl, userId);
    if userId in Admins(acl) {
      assert |Admins(acl) - {userId}| == |Admins(acl)| - 1;
    } else {
      assert Admins(acl) - {userId} == Admins(acl);
    }
  }

  /** A snapshot of the tables the queries read. `order` lists user ids in
      insertion order, which breaks ties between equal `createdAt` values. */
  datatype Snapshot = Snapshot(
    users: map<UserId, UserRow>,
    order: seq<UserId>,
    acl: map<UserId, ServerRole>,
    emails: seq<EmailRecord>)

  predicate Differ(a: UserId, b: UserId) {
    a != b
  }

  /** The constraints the database keeps: primary keys, foreign keys to users,
      and the ledger's uniqueness constraints. */
  predicate Consistent(s: Snapshot) {
    && Pairwise(s.order, Differ)
    && (forall u | u in s.order :: u in s.users)
    && (forall u | u in s.users :: u in s.order)
    && (forall u | u in s.users :: s.users[u].id == u)
    && s.acl.Keys <= s.users.Keys
    && (forall e | e in s.emails :: e.userId in s.users)
    && LedgerSound(s.emails)
  }

  /** Every email id was drawn from a counter now at `next`. */
  predicate IdsBelow(emails: seq<EmailRecord>, next: EmailId) {
    forall e | e in emails :: e.id < next
  }

  /** No user is ever left without an email record. */
  predicate EveryUserHasEmail(s: Snapshot) {
    forall u | u in s.users :: HasEmail(s.emails, u)
  }

  /** Every user has a primary email record. */
  predicate EveryUserHasPrimary(s: Snapshot) {
    forall u | u in s.users :: HasPrimary(s.emails, u)
  }

  /** In a sound ledger a user has at most one primary record. */
  lemma {:induction false} PrimaryIsUnique(emails: seq<EmailRecord>, a: EmailRecord, b: EmailRecord)
    requires LedgerSound(emails)
    requires a in emails && b in emails
    requires a.primary && b.primary && a.userId == b.userId
    ensures a == b
  {
    var i :| 0 <= i < |emails| && emails[i] == a;
    var j :| 0 <= j < |emails| && emails[j] == b;
  }

  /** In a sound ledger an address (compared case-insensitively) names at most one record. */
  lemma {:induction false} AddressIsUnique(emails: seq<EmailRecord>, a: EmailRecord, b: EmailRecord)
    requires LedgerSound(emails)
    requires a in emails && b in emails
    requires Lower(a.email) == Lower(b.email)
    ensures a == b
  {
    var i :| 0 <= i < |emails| && emails[i] == a;
    var j :| 0 <= j < |emails| && emails[j] == b;
  }

  /** Adding a user with a fresh id, its row and its role keeps every constraint. */
  lemma AddUserConsistent(s: Snapshot, row: UserRow, role: ServerRole)
    requires Consistent(s) && row.id !in s.users
    ensures Consistent(Snapshot(s.users[row.id := row], s.order + [row.id], s.acl[row.id := role], s.emails))
  {
    var order := s.order + [row.id];
    forall i, j | 0 <= i < j < |order| ensures Differ(order[i], order[j]) {
      if j < |s.order| {
        assert order[i] == s.order[i] && order[j] == s.order[j];
      } else {
        assert order[i] in s.order;
      }
    }
  }

  /** The user ids without this one. */
  function OrderWithout(order: seq<UserId>, id: UserId): seq<UserId> {
    Filter(order, (u: UserId) => u != id)
  }

  /** The email table after deleting every record of this user. */
  function WithoutUser(emails: seq<EmailRecord>, userId: UserId): seq<EmailRecord> {
    Filter(emails, (e: EmailRecord) => e.userId != userId)
  }

  /** Removing a user with every row that refers to it keeps every constraint,
      and if every other user had an email record, they still do. */
  lemma RemoveUserConsistent(s: Snapshot, id: UserId)
    requires Consistent(s)
    ensures var t := Snapshot(s.users - {id}, OrderWithout(s.order, id), s.acl - {id}, WithoutUser(s.emails, id));
      && Consistent(t)
      && (EveryUserHasEmail(s) ==> EveryUserHasEmail(t))
      && (EveryUserHasPrimary(s) ==> EveryUserHasPrimary(t))
  {
    FilterPairwise(s.order, (u: UserId) => u != id, Differ);
    FilterPairwise(s.emails, (e: EmailRecord) => e.userId != id, Compatible);
  }
}
