/** The read-only queries of the users service: getUserById, getUserByEmail,
    getUserRole, searchUsers, getUsers and countUsers, as functions of a
    snapshot of the tables. */
module UserQueries {
  import opened Seqs
  import opened Text
  import opened Schema
  import opened Store

  /** A user as getUserById, getUserByEmail and getUsers return it: the users
      columns without the password digest, with `email` and `verified` taken
      from a user_emails row. There is no field for the digest. */
  datatype UserView = UserView(
    id: UserId,
    name: string,
    bio: Option<string>,
    company: Option<string>,
    avatar: Option<string>,
    createdAt: int,
    email: Option<string>,
    verified: Option<bool>)

  function View(id: UserId, row: UserRow, e: Option<EmailRecord>): UserView {
    UserView(id, row.name, row.bio, row.company, row.avatar, row.createdAt,
      if e.Some? then Some(e.value.email) else None,
      if e.Some? then Some(e.value.verified) else None)
  }

  /** `getUserById`: the user joined with its primary email record; a user
      without a primary record is not found. */
  function GetUserById(s: Snapshot, userId: UserId): (r: Option<UserView>)
    ensures r.Some? <==> userId in s.users && HasPrimary(s.emails, userId)
    ensures r.Some? ==> exists e | e in s.emails && e.userId == userId && e.primary ::
      r.value == View(userId, s.users[userId], Some(e))
  {
    if userId !in s.users then None
    else match FindPrimaryEmailForUser(s.emails, None, Some(userId))
      case None => None
      case Some(e) => Some(View(userId, s.users[userId], Some(e)))
  }

  /** In a sound ledger the user found by id carries its one primary address. */
  lemma GetUserByIdPrimary(s: Snapshot, e: EmailRecord)
    requires LedgerSound(s.emails) && e in s.emails && e.primary && e.userId in s.users
    ensures GetUserById(s, e.userId) == Some(View(e.userId, s.users[e.userId], Some(e)))
  {
    var f := FindPrimaryEmailForUser(s.emails, None, Some(e.userId));
    assert !(forall x | x in s.emails && x.primary :: !Matches(x, EmailQuery(None, None, Some(e.userId), None)));
    PrimaryIsUnique(s.emails, f.value, e);
  }

  /** `getUserByEmail`: the owner of the primary record holding the address,
      compared case-insensitively. */
  function GetUserByEmail(s: Snapshot, email: string): (r: Option<UserView>)
    ensures r.Some? ==> exists e | e in s.emails && e.primary && Lower(e.email) == Lower(email) && e.userId in s.users ::
      r.value == View(e.userId, s.users[e.userId], Some(e))
    ensures (forall e | e in s.emails :: e.userId in s.users) ==>
      (r.None? <==> forall e | e in s.emails && e.primary :: Lower(e.email) != Lower(email))
  {
    match FindPrimaryEmailForUser(s.emails, Some(email), None)
    case None => None
    case Some(e) => if e.userId in s.users then Some(View(e.userId, s.users[e.userId], Some(e))) else None
  }

  /** Two spellings of one address that differ only in case find the same user. */
  lemma GetUserByEmailIgnoresCase(s: Snapshot, a: string, b: string)
    requires Lower(a) == Lower(b)
    ensures GetUserByEmail(s, a) == GetUserByEmail(s, b)
  {
    FindEmailIgnoresCase(s.emails, EmailQuery(None, Some(a), None, Some(true)), b);
  }

  /** In a consistent snapshot, every primary address, in any case, finds its owner. */
  lemma GetUserByEmailFindsOwner(s: Snapshot, e: EmailRecord, spelling: string)
    requires Consistent(s) && e in s.emails && e.primary && Lower(spelling) == Lower(e.email)
    ensures GetUserByEmail(s, spelling) == Some(View(e.userId, s.users[e.userId], Some(e)))
  {
    FindPrimaryByAddress(s.emails, e, spelling);
  }

  /** `getUserRole`: the user's server role, or none without an ACL row. */
  function GetUserRole(s: Snapshot, userId: UserId): (r: Option<ServerRole>)
    ensures r.None? <==> userId !in s.acl
    ensures r.Some? ==> userId in s.acl && r.value == s.acl[userId]
  {
    if userId in s.acl then Some(s.acl[userId]) else None
  }

  /** A row of `users JOIN server_acl LEFT JOIN user_emails` before grouping;
      `role` is absent when the user has no ACL row (the queries that join the
      ACL drop such rows). */
  datatype JoinRow = JoinRow(id: UserId, user: UserRow, role: Option<ServerRole>, email: Option<EmailRecord>)

  function RoleOf(s: Snapshot, u: UserId): Option<ServerRole> {
    if u in s.acl then Some(s.acl[u]) else None
  }

  /** The join rows of one user: one per email record of the user, in table
      order, or a single row without an email when the user has none. */
  function RowsOf(s: Snapshot, u: UserId): seq<JoinRow>
    requires u in s.users
  {
    var mine := EmailsOf(s.emails, u);
    if mine == [] then [JoinRow(u, s.users[u], RoleOf(s, u), None)]
    else seq(|mine|, i requires 0 <= i < |mine| => JoinRow(u, s.users[u], RoleOf(s, u), Some(mine[i])))
  }

  /** The join rows of a user carry its row and its role, and exactly its email records. */
  lemma RowsOfFacts(s: Snapshot, u: UserId)
    requires u in s.users
    ensures RowsOf(s, u) != []
    ensures forall row | row in RowsOf(s, u) :: row.id == u && row.user == s.users[u] && row.role == RoleOf(s, u)
    ensures forall row | row in RowsOf(s, u) && row.email.Some? :: row.email.value in s.emails && row.email.value.userId == u
    ensures forall e | e in s.emails && e.userId == u :: JoinRow(u, s.users[u], RoleOf(s, u), Some(e)) in RowsOf(s, u)
    ensures !HasEmail(s.emails, u) ==> RowsOf(s, u) == [JoinRow(u, s.users[u], RoleOf(s, u), None)]
    ensures |EmailsOf(s.emails, u)| <= 1 ==> |RowsOf(s, u)| == 1
  {
    var mine := EmailsOf(s.emails, u);
    var rows := RowsOf(s, u);
    if mine != [] {
      assert mine[0] in mine;
      forall e | e in s.emails && e.userId == u ensures JoinRow(u, s.users[u], RoleOf(s, u), Some(e)) in rows {
        var i :| 0 <= i < |mine| && mine[i] == e;
        assert rows[i] == JoinRow(u, s.users[u], RoleOf(s, u), Some(e));
      }
      forall row | row in rows && row.email.Some? ensures row.email.value in s.emails && row.email.value.userId == u {
        var i :| 0 <= i < |rows| && rows[i] == row;
        assert mine[i] in mine;
      }
    }
  }

  /** `GROUP BY users.id` over the rows that pass `keep`: one row per user of
      `us` that has a passing row, namely its first passing row, which supplies
      the `array_agg(...)[1]` columns. */
  function Grouped(s: Snapshot, us: seq<UserId>, keep: JoinRow -> bool): (r: seq<JoinRow>)
    ensures |r| <= |us|
    decreases |us|
  {
    if us == [] then []
    else if us[0] in s.users && FindFirst(RowsOf(s, us[0]), keep).Some? then
      [FindFirst(RowsOf(s, us[0]), keep).value] + Grouped(s, us[1..], keep)
    else
      Grouped(s, us[1..], keep)
  }

  /** Every grouped row passed the filter and is a join row of a listed user. */
  lemma {:induction false} GroupedSound(s: Snapshot, us: seq<UserId>, keep: JoinRow -> bool)
    ensures forall row | row in Grouped(s, us, keep) ::
      keep(row) && row.id in us && row.id in s.users && row in RowsOf(s, row.id)
    decreases |us|
  {
    if us != [] {
      GroupedSound(s, us[1..], keep);
      assert forall u | u in us[1..] :: u in us;
      if us[0] in s.users {
        RowsOfFacts(s, us[0]);
      }
    }
  }

  /** Every listed user with a passing row is grouped, with its first passing row. */
  lemma {:induction false} GroupedComplete(s: Snapshot, us: seq<UserId>, keep: JoinRow -> bool, u: UserId)
    requires u in us && u in s.users && FindFirst(RowsOf(s, u), keep).Some?
    ensures FindFirst(RowsOf(s, u), keep).value in Grouped(s, us, keep)
    decreases |us|
  {
    if us[0] != u {
      assert u in us[1..];
      GroupedComplete(s, us[1..], keep, u);
    }
  }

  predicate DifferentUsers(a: JoinRow, b: JoinRow) {
    a.id != b.id
  }

  /** Over distinct users, no user is grouped twice. */
  lemma {:induction false} GroupedDistinct(s: Snapshot, us: seq<UserId>, keep: JoinRow -> bool)
    requires Pairwise(us, Differ)
    ensures Pairwise(Grouped(s, us, keep), DifferentUsers)
    decreases |us|
  {
    if us != [] {
      PairwiseTail(us, Differ);
      GroupedDistinct(s, us[1..], keep);
      if us[0] in s.users && FindFirst(RowsOf(s, us[0]), keep).Some? {
        GroupedSound(s, us[1..], keep);
        RowsOfFacts(s, us[0]);
        var head := FindFirst(RowsOf(s, us[0]), keep).value;
        PairwiseCons(head, Grouped(s, us[1..], keep), DifferentUsers);
      }
    }
  }

  /** Groupings with filters that agree on every row of the listed users agree. */
  lemma {:induction false} GroupedAgree(s: Snapshot, us: seq<UserId>, p: JoinRow -> bool, q: JoinRow -> bool)
    requires forall u, row | u in us && u in s.users && row in RowsOf(s, u) :: p(row) == q(row)
    ensures Grouped(s, us, p) == Grouped(s, us, q)
    decreases |us|
  {
    if us != [] {
      assert us[0] in us;
      if us[0] in s.users {
        FindFirstAgree(RowsOf(s, us[0]), p, q);
      }
      assert forall u | u in us[1..] :: u in us;
      GroupedAgree(s, us[1..], p, q);
    }
  }

  /** The user fields a normal user may see (LIMITED_USER_FIELDS), with
      `verified` from the user's first passing join row. */
  datatype LimitedUser = LimitedUser(
    id: UserId,
    name: string,
    bio: Option<string>,
    company: Option<string>,
    avatar: Option<string>,
    createdAt: int,
    verified: Option<bool>)

  function Limited(row: JoinRow): LimitedUser {
    LimitedUser(row.id, row.user.name, row.user.bio, row.user.company, row.user.avatar, row.user.createdAt,
      if row.email.Some? then Some(row.email.value.verified) else None)
  }

  /** A page of searchUsers: the users and the cursor for the next page. */
  datatype SearchPage = SearchPage(users: seq<LimitedUser>, cursor: Option<int>)

  const DefaultSearchLimit: nat := 25

  /** `limit || defaultLimit`: an absent or zero limit means 25; there is no upper bound. */
  function SearchLimit(limit: Option<nat>): (r: nat)
    ensures r > 0
    ensures limit.Some? && limit.value > 0 ==> r == limit.value
    ensures (limit.None? || limit.value == 0) ==> r == DefaultSearchLimit
  {
    if limit.None? || limit.value == 0 then DefaultSearchLimit else limit.value
  }

  /** `user_emails.email = q`, against the joined record: exact and case-sensitive. */
  predicate EmailEquals(row: JoinRow, q: string) {
    row.email.Some? && row.email.value.email == q
  }

  /** `name ILIKE %q%`. */
  predicate NameLike(row: JoinRow, q: string) {
    ILike(row.user.name, q)
  }

  predicate Unarchived(row: JoinRow) {
    row.role != Some(ArchivedUser)
  }

  /** `users.createdAt < cursor`, applied only when a cursor is given. */
  predicate BeforeCursor(row: JoinRow, cursor: Option<int>) {
    cursor.None? || row.user.createdAt < cursor.value
  }

  /** The WHERE clause of searchUsers as the query builder composes it:
      `email = q OR name ILIKE q AND role <> archived`, where AND binds
      tighter, so the archive filter guards only the name match. */
  predicate SearchFilterAsWritten(row: JoinRow, q: string, cursor: Option<int>, archived: bool, emailOnly: bool) {
    && row.role.Some?
    && (if emailOnly then EmailEquals(row, q) && (archived || Unarchived(row))
        else EmailEquals(row, q) || (NameLike(row, q) && (archived || Unarchived(row))))
    && BeforeCursor(row, cursor)
  }

  /** The WHERE clause of searchUsers with the archive filter guarding both matches. */
  predicate SearchFilter(row: JoinRow, q: string, cursor: Option<int>, archived: bool, emailOnly: bool) {
    && row.role.Some?
    && (EmailEquals(row, q) || (!emailOnly && NameLike(row, q)))
    && (archived || Unarchived(row))
    && BeforeCursor(row, cursor)
  }

  /** The sort key of `ORDER BY users.createdAt DESC`. */
  function Recency(row: JoinRow): int {
    -row.user.createdAt
  }

  /** The grouped rows, newest first; ties keep table order. */
  function NewestRows(s: Snapshot, keep: JoinRow -> bool): seq<JoinRow> {
    SortBy(Grouped(s, s.order, keep), Recency)
  }

  function Newest(s: Snapshot, keep: JoinRow -> bool): seq<LimitedUser> {
    var sorted := NewestRows(s, keep);
    seq(|sorted|, i requires 0 <= i < |sorted| => Limited(sorted[i]))
  }

  /** At most the limit of the newest rows, and the cursor from the last one. */
  function Page(s: Snapshot, keep: JoinRow -> bool, limit: Option<nat>): SearchPage {
    var users := Window(Newest(s, keep), 0, SearchLimit(limit));
    SearchPage(users, if users == [] then None else Some(users[|users| - 1].createdAt))
  }

  /** The page runs newest first, and its cursor is the creation time of its
      last user (none for an empty page). */
  predicate NewestFirst(r: SearchPage) {
    && (r.cursor.None? <==> r.users == [])
    && (r.cursor.Some? ==> r.cursor.value == r.users[|r.users| - 1].createdAt)
    && (forall i, j | 0 <= i < j < |r.users| :: r.users[i].createdAt >= r.users[j].createdAt)
  }

  /** Every listed user with a join row passing `keep` is on the page, unless
      the page is full and the user is no newer than its last user. */
  predicate HasEveryUser(s: Snapshot, r: SearchPage, keep: JoinRow -> bool, limit: Option<nat>) {
    forall u | u in s.order && u in s.users && (exists row | row in RowsOf(s, u) :: keep(row)) ::
      || (exists x | x in r.users :: x.id == u)
      || (|r.users| == SearchLimit(limit) && s.users[u].createdAt <= r.users[|r.users| - 1].createdAt)
  }

  /** No user appears twice on the page. */
  predicate DistinctIds(r: SearchPage) {
    forall i, j | 0 <= i < j < |r.users| :: r.users[i].id != r.users[j].id
  }

  /** A page holds as many grouped users as the limit allows, newest first,
      and its cursor is the creation time of its last user. */
  lemma PageFacts(s: Snapshot, keep: JoinRow -> bool, limit: Option<nat>)
    ensures var r := Page(s, keep, limit);
      && |r.users| == (if |Grouped(s, s.order, keep)| < SearchLimit(limit) then |Grouped(s, s.order, keep)| else SearchLimit(limit))
      && NewestFirst(r)
      && (forall x | x in r.users :: exists row | row in Grouped(s, s.order, keep) :: x == Limited(row))
  {
    var grouped := Grouped(s, s.order, keep);
    var sorted := NewestRows(s, keep);
    var users := Page(s, keep, limit).users;
    forall x | x in users ensures exists row | row in grouped :: x == Limited(row) {
      var i :| 0 <= i < |users| && users[i] == x;
      assert sorted[i] in multiset(sorted);
    }
    forall i, j | 0 <= i < j < |users| ensures users[i].createdAt >= users[j].createdAt {
      assert Recency(sorted[i]) <= Recency(sorted[j]);
    }
  }

  /** The page is the newest grouped rows: a grouped row missing from it is
      no newer than the last user of a full page. */
  lemma PageComplete(s: Snapshot, keep: JoinRow -> bool, limit: Option<nat>)
    ensures var r := Page(s, keep, limit);
      forall row | row in Grouped(s, s.order, keep) ::
        || Limited(row) in r.users
        || (|r.users| == SearchLimit(limit) && row.user.createdAt <= r.users[|r.users| - 1].createdAt)
  {
    var grouped := Grouped(s, s.order, keep);
    var sorted := NewestRows(s, keep);
    var users := Page(s, keep, limit).users;
    forall row | row in grouped
      ensures Limited(row) in users || (|users| == SearchLimit(limit) && row.user.createdAt <= users[|users| - 1].createdAt)
    {
      assert row in multiset(sorted);
      var k :| 0 <= k < |sorted| && sorted[k] == row;
      if k < |users| {
        assert users[k] == Limited(row);
      } else {
        assert |users| == SearchLimit(limit);
        assert Recency(sorted[|users| - 1]) <= Recency(sorted[k]);
      }
    }
  }

  /** Over distinct user ids, a page lists no user twice. */
  lemma PageDistinct(s: Snapshot, keep: JoinRow -> bool, limit: Option<nat>)
    ensures Pairwise(s.order, Differ) ==> DistinctIds(Page(s, keep, limit))
  {
    if Pairwise(s.order, Differ) {
      var sorted := NewestRows(s, keep);
      var users := Page(s, keep, limit).users;
      GroupedDistinct(s, s.order, keep);
      SortByPairwise(Grouped(s, s.order, keep), Recency, DifferentUsers);
      forall i, j | 0 <= i < j < |users| ensures users[i].id != users[j].id {
        assert users[i] == Limited(sorted[i]) && users[j] == Limited(sorted[j]);
      }
    }
  }

  /** A page misses no user it has room for. */
  lemma PageHasEveryUser(s: Snapshot, keep: JoinRow -> bool, limit: Option<nat>)
    ensures HasEveryUser(s, Page(s, keep, limit), keep, limit)
  {
    var users := Page(s, keep, limit).users;
    PageComplete(s, keep, limit);
    forall u | u in s.order && u in s.users && (exists row | row in RowsOf(s, u) :: keep(row))
      ensures || (exists x | x in users :: x.id == u)
              || (|users| == SearchLimit(limit) && s.users[u].createdAt <= users[|users| - 1].createdAt)
    {
      var row := FindFirst(RowsOf(s, u), keep).value;
      GroupedComplete(s, s.order, keep, u);
      RowsOfFacts(s, u);
      assert row.id == u && row.user == s.users[u];
      if Limited(row) in users {
        assert Limited(row).id == u;
      }
    }
  }

  function SearchKeep(q: string, cursor: Option<int>, archived: bool, emailOnly: bool): JoinRow -> bool {
    (row: JoinRow) => SearchFilter(row, q, cursor, archived, emailOnly)
  }

  function SearchKeepAsWritten(q: string, cursor: Option<int>, archived: bool, emailOnly: bool): JoinRow -> bool {
    (row: JoinRow) => SearchFilterAsWritten(row, q, cursor, archived, emailOnly)
  }

  /** The user holds a record with exactly this address. */
  predicate HoldsAddress(emails: seq<EmailRecord>, u: UserId, q: string) {
    exists e | e in emails && e.userId == u :: e.email == q
  }

  /** What a user returned by searchUsers satisfies. */
  predicate SearchHit(s: Snapshot, x: LimitedUser, q: string, cursor: Option<int>, archived: bool, emailOnly: bool) {
    && x.id in s.users && x.id in s.acl
    && x.createdAt == s.users[x.id].createdAt
    && (!archived ==> s.acl[x.id] != ArchivedUser)
    && (cursor.Some? ==> x.createdAt < cursor.value)
    && (HoldsAddress(s.emails, x.id, q) || (!emailOnly && ILike(s.users[x.id].name, q)))
  }

  /** Every user of the search page passes the corrected filter. */
  lemma SearchPageSound(s: Snapshot, q: string, limit: Option<nat>, cursor: Option<int>, archived: bool, emailOnly: bool)
    ensures forall x | x in Page(s, SearchKeep(q, cursor, archived, emailOnly), limit).users ::
      SearchHit(s, x, q, cursor, archived, emailOnly)
  {
    var keep := SearchKeep(q, cursor, archived, emailOnly);
    PageFacts(s, keep, limit);
    GroupedSound(s, s.order, keep);
    forall x | x in Page(s, keep, limit).users ensures SearchHit(s, x, q, cursor, archived, emailOnly) {
      var row :| row in Grouped(s, s.order, keep) && x == Limited(row);
      RowsOfFacts(s, row.id);
      if EmailEquals(row, q) {
        assert row.email.value in s.emails;
      }
    }
  }

  /** `searchUsers` as written. */
  function SearchUsersAsWritten(s: Snapshot, q: string, limit: Option<nat>, cursor: Option<int>, archived: bool, emailOnly: bool): (r: SearchPage)
    ensures |r.users| <= SearchLimit(limit)
    ensures NewestFirst(r)
    ensures forall x | x in r.users :: exists row | row in Grouped(s, s.order, SearchKeepAsWritten(q, cursor, archived, emailOnly)) ::
      x == Limited(row)
    ensures HasEveryUser(s, r, SearchKeepAsWritten(q, cursor, archived, emailOnly), limit)
    ensures Pairwise(s.order, Differ) ==> DistinctIds(r)
  {
    var keep := SearchKeepAsWritten(q, cursor, archived, emailOnly);
    PageFacts(s, keep, limit);
    PageHasEveryUser(s, keep, limit);
    PageDistinct(s, keep, limit);
    Page(s, keep, limit)
  }

  /** `searchUsers` with the archive filter applied to every match: only users
      with an ACL row, matching the address exactly or (unless `emailOnly`)
      the name case-insensitively, not archived unless `archived`, older than
      the cursor; newest first, at most the limit. */
  function SearchUsers(s: Snapshot, q: string, limit: Option<nat>, cursor: Option<int>, archived: bool, emailOnly: bool): (r: SearchPage)
    ensures |r.users| <= SearchLimit(limit)
    ensures NewestFirst(r)
    ensures forall x | x in r.users :: SearchHit(s, x, q, cursor, archived, emailOnly)
    ensures HasEveryUser(s, r, SearchKeep(q, cursor, archived, emailOnly), limit)
    ensures Pairwise(s.order, Differ) ==> DistinctIds(r)
  {
    var keep := SearchKeep(q, cursor, archived, emailOnly);
    PageFacts(s, keep, limit);
    SearchPageSound(s, q, limit, cursor, archived, emailOnly);
    PageHasEveryUser(s, keep, limit);
    PageDistinct(s, keep, limit);
    Page(s, keep, limit)
  }

  const DefaultUsersLimit: nat := 10
  const MaxUsersLimit: nat := 200

  /** The limit of getUsers: 10 when absent, and never more than 200. */
  function UsersLimit(limit: Option<nat>): (r: nat)
    ensures r <= MaxUsersLimit
    ensures limit.None? ==> r == DefaultUsersLimit
    ensures limit.Some? ==> r == if limit.value > MaxUsersLimit then MaxUsersLimit else limit.value
  {
    if limit.None? then DefaultUsersLimit
    else if limit.value > MaxUsersLimit then MaxUsersLimit
    else limit.value
  }

  /** The search filter of getUsers and countUsers: with a query, the name,
      the company or the joined address must ILIKE-match it. */
  predicate BaseFilter(row: JoinRow, q: Option<string>) {
    || q.None?
    || ILike(row.user.name, q.value)
    || (row.user.company.Some? && ILike(row.user.company.value, q.value))
    || (row.email.Some? && ILike(row.email.value.email, q.value))
  }

  function BaseKeep(q: Option<string>): JoinRow -> bool {
    (row: JoinRow) => BaseFilter(row, q)
  }

  /** The users getUsers selects, grouped, in table order. */
  function UsersMatching(s: Snapshot, q: Option<string>): seq<JoinRow> {
    Grouped(s, s.order, BaseKeep(q))
  }

  /** The sort key of `ORDER BY users.createdAt`. */
  function CreatedAt(row: JoinRow): int {
    row.user.createdAt
  }

  /** The users getUsers selects, oldest first; ties keep table order. */
  function OldestFirst(s: Snapshot, q: Option<string>): seq<UserView> {
    var sorted := SortBy(UsersMatching(s, q), CreatedAt);
    seq(|sorted|, i requires 0 <= i < |sorted| => View(sorted[i].id, sorted[i].user, sorted[i].email))
  }

  /** The matching users, oldest first: one view per grouped user, every
      grouped user's view, and (over distinct user ids) no user twice. */
  lemma OldestFirstFacts(s: Snapshot, q: Option<string>)
    ensures |OldestFirst(s, q)| == |UsersMatching(s, q)|
    ensures forall i, j | 0 <= i < j < |OldestFirst(s, q)| :: OldestFirst(s, q)[i].createdAt <= OldestFirst(s, q)[j].createdAt
    ensures forall x | x in OldestFirst(s, q) :: exists row | row in UsersMatching(s, q) :: x == View(row.id, row.user, row.email)
    ensures forall row | row in UsersMatching(s, q) :: View(row.id, row.user, row.email) in OldestFirst(s, q)
    ensures Pairwise(s.order, Differ) ==>
      forall i, j | 0 <= i < j < |OldestFirst(s, q)| :: OldestFirst(s, q)[i].id != OldestFirst(s, q)[j].id
  {
    OldestFirstSorted(s, q);
    OldestFirstSound(s, q);
    OldestFirstComplete(s, q);
    OldestFirstDistinct(s, q);
  }

  lemma OldestFirstSorted(s: Snapshot, q: Option<string>)
    ensures forall i, j | 0 <= i < j < |OldestFirst(s, q)| :: OldestFirst(s, q)[i].createdAt <= OldestFirst(s, q)[j].createdAt
  {
    var sorted := SortBy(UsersMatching(s, q), CreatedAt);
    var all := OldestFirst(s, q);
    forall i, j | 0 <= i < j < |all| ensures all[i].createdAt <= all[j].createdAt {
      assert CreatedAt(sorted[i]) <= CreatedAt(sorted[j]);
    }
  }

  lemma OldestFirstSound(s: Snapshot, q: Option<string>)
    ensures forall x | x in OldestFirst(s, q) :: exists row | row in UsersMatching(s, q) :: x == View(row.id, row.user, row.email)
  {
    var sorted := SortBy(UsersMatching(s, q), CreatedAt);
    var all := OldestFirst(s, q);
    forall x | x in all ensures exists row | row in UsersMatching(s, q) :: x == View(row.id, row.user, row.email) {
      var i :| 0 <= i < |all| && all[i] == x;
      assert sorted[i] in multiset(sorted);
    }
  }

  lemma OldestFirstComplete(s: Snapshot, q: Option<string>)
    ensures forall row | row in UsersMatching(s, q) :: View(row.id, row.user, row.email) in OldestFirst(s, q)
  {
    var sorted := SortBy(UsersMatching(s, q), CreatedAt);
    var all := OldestFirst(s, q);
    forall row | row in UsersMatching(s, q) ensures View(row.id, row.user, row.email) in all {
      assert row in multiset(sorted);
      var k :| 0 <= k < |sorted| && sorted[k] == row;
      assert all[k] == View(row.id, row.user, row.email);
    }
  }

  lemma OldestFirstDistinct(s: Snapshot, q: Option<string>)
    ensures Pairwise(s.order, Differ) ==>
      forall i, j | 0 <= i < j < |OldestFirst(s, q)| :: OldestFirst(s, q)[i].id != OldestFirst(s, q)[j].id
  {
    if Pairwise(s.order, Differ) {
      var sorted := SortBy(UsersMatching(s, q), CreatedAt);
      var all := OldestFirst(s, q);
      GroupedDistinct(s, s.order, BaseKeep(q));
      SortByPairwise(UsersMatching(s, q), CreatedAt, DifferentUsers);
      forall i, j | 0 <= i < j < |all| ensures all[i].id != all[j].id {
        assert all[i].id == sorted[i].id && all[j].id == sorted[j].id;
      }
    }
  }

  /** `getUsers`: the matching users oldest first, from `offset` on, at most
      the clamped limit. */
  function GetUsers(s: Snapshot, limit: Option<nat>, offset: nat, q: Option<string>): (r: seq<UserView>)
    ensures |r| <= UsersLimit(limit) <= MaxUsersLimit
    ensures offset <= |UsersMatching(s, q)| ==>
      |r| == if |UsersMatching(s, q)| - offset < UsersLimit(limit) then |UsersMatching(s, q)| - offset else UsersLimit(limit)
    ensures forall i, j | 0 <= i < j < |r| :: r[i].createdAt <= r[j].createdAt
    ensures forall x | x in r :: exists row | row in UsersMatching(s, q) :: x == View(row.id, row.user, row.email)
    ensures forall i | 0 <= i < |r| :: offset + i < |OldestFirst(s, q)| && r[i] == OldestFirst(s, q)[offset + i]
    ensures Pairwise(s.order, Differ) ==> forall i, j | 0 <= i < j < |r| :: r[i].id != r[j].id
  {
    OldestFirstFacts(s, q);
    var r := Window(OldestFirst(s, q), offset, UsersLimit(limit));
    assert forall i, j | 0 <= i < j < |r| :: r[i] == OldestFirst(s, q)[offset + i] && r[j] == OldestFirst(s, q)[offset + j];
    r
  }

  /** Every user getUsers returns is a user of the snapshot with a passing row. */
  lemma GetUsersSound(s: Snapshot, limit: Option<nat>, offset: nat, q: Option<string>)
    ensures forall x | x in GetUsers(s, limit, offset, q) ::
      x.id in s.users && x.createdAt == s.users[x.id].createdAt && x.name == s.users[x.id].name
  {
    GroupedSound(s, s.order, BaseKeep(q));
    forall x | x in GetUsers(s, limit, offset, q)
      ensures x.id in s.users && x.createdAt == s.users[x.id].createdAt && x.name == s.users[x.id].name
    {
      var row :| row in UsersMatching(s, q) && x == View(row.id, row.user, row.email);
      RowsOfFacts(s, row.id);
    }
  }

  /** getUsers ignores the case of its query. */
  lemma GetUsersIgnoresCase(s: Snapshot, limit: Option<nat>, offset: nat, a: string, b: string)
    requires Lower(a) == Lower(b)
    ensures GetUsers(s, limit, offset, Some(a)) == GetUsers(s, limit, offset, Some(b))
  {
    GroupedAgree(s, s.order, BaseKeep(Some(a)), BaseKeep(Some(b)));
  }

  /** The number of passing join rows of the listed users. */
  function CountRows(s: Snapshot, us: seq<UserId>, keep: JoinRow -> bool): (r: nat)
    ensures r >= |Grouped(s, us, keep)|
    ensures (forall u | u in us && u in s.users :: |EmailsOf(s.emails, u)| <= 1) ==> r == |Grouped(s, us, keep)|
    decreases |us|
  {
    if us == [] then 0
    else
      assert forall u | u in us[1..] :: u in us;
      var here := if us[0] in s.users then |Filter(RowsOf(s, us[0]), keep)| else 0;
      assert us[0] in s.users ==> (FindFirst(RowsOf(s, us[0]), keep).Some? <==> here >= 1) by {
        if us[0] in s.users {
          var rows := RowsOf(s, us[0]);
          if FindFirst(rows, keep).Some? {
            assert FindFirst(rows, keep).value in Filter(rows, keep);
          }
          if here >= 1 {
            assert Filter(rows, keep)[0] in Filter(rows, keep);
          }
        }
      }
      here + CountRows(s, us[1..], keep)
  }

  /** Counts with filters that agree on every row of the listed users agree. */
  lemma {:induction false} CountRowsAgree(s: Snapshot, us: seq<UserId>, p: JoinRow -> bool, q: JoinRow -> bool)
    requires forall u, row | u in us && u in s.users && row in RowsOf(s, u) :: p(row) == q(row)
    ensures CountRows(s, us, p) == CountRows(s, us, q)
    decreases |us|
  {
    if us != [] {
      assert us[0] in us;
      if us[0] in s.users {
        FilterAgree(RowsOf(s, us[0]), p, q);
      }
      assert forall u | u in us[1..] :: u in us;
      CountRowsAgree(s, us[1..], p, q);
    }
  }

  /** `countUsers`: `count()` over the joined rows that pass the filter, without
      grouping, so a user is counted once per passing email row. */
  function CountUsers(s: Snapshot, q: Option<string>): (r: nat)
    ensures r >= |UsersMatching(s, q)|
    ensures (forall u | u in s.users :: |EmailsOf(s.emails, u)| <= 1) ==> r == |UsersMatching(s, q)|
  {
    CountRows(s, s.order, BaseKeep(q))
  }

  /** countUsers ignores the case of its query. */
  lemma CountUsersIgnoresCase(s: Snapshot, a: string, b: string)
    requires Lower(a) == Lower(b)
    ensures CountUsers(s, Some(a)) == CountUsers(s, Some(b))
  {
    CountRowsAgree(s, s.order, BaseKeep(Some(a)), BaseKeep(Some(b)));
  }

  /** A server with one archived user, Ann, holding one primary address. */
  function ArchivedAnn(): Snapshot {
    Snapshot(
      map["ann" := UserRow("ann", "Ann", None, None, None, "ann@example.org", true, None, 1)],
      ["ann"],
      map["ann" := ArchivedUser],
      [EmailRecord(0, "ann", "ann@example.org", true, true)])
  }

  /** As written, a search that excludes archived users still returns an
      archived user whose address equals the query; the corrected search does not. */
  lemma ArchivedUserFoundByAddress()
    ensures SearchUsersAsWritten(ArchivedAnn(), "ann@example.org", None, None, false, false).users != []
    ensures SearchUsers(ArchivedAnn(), "ann@example.org", None, None, false, false).users == []
  {
    ArchivedAnnFoundAsWritten();
    ArchivedAnnHidden();
  }

  /** The as-written filter lets Ann's address through. */
  lemma ArchivedAnnFoundAsWritten()
    ensures SearchUsersAsWritten(ArchivedAnn(), "ann@example.org", None, None, false, false).users != []
  {
    var s := ArchivedAnn();
    var e := EmailRecord(0, "ann", "ann@example.org", true, true);
    assert e in s.emails;
    RowsOfFacts(s, "ann");
    var row := JoinRow("ann", s.users["ann"], RoleOf(s, "ann"), Some(e));
    assert row in RowsOf(s, "ann") && SearchFilterAsWritten(row, "ann@example.org", None, false, false);
    assert "ann" in s.order && "ann" in s.users;
  }

  /** The corrected filter hides the archived Ann. */
  lemma ArchivedAnnHidden()
    ensures SearchUsers(ArchivedAnn(), "ann@example.org", None, None, false, false).users == []
  {
    var s := ArchivedAnn();
    assert s.users.Keys == {"ann"};
    NobodyShownWhenAllArchived(s, "ann@example.org", None, None, false);
  }

  /** Without `archived`, the corrected search shows nobody on a server whose
      every user is archived. */
  lemma NobodyShownWhenAllArchived(s: Snapshot, q: string, limit: Option<nat>, cursor: Option<int>, emailOnly: bool)
    requires forall u | u in s.users :: u in s.acl && s.acl[u] == ArchivedUser
    ensures SearchUsers(s, q, limit, cursor, false, emailOnly).users == []
  {
    HeadIn(SearchUsers(s, q, limit, cursor, false, emailOnly).users);
  }


  /** A server with one user holding two addresses. */
  function AnnWithTwoAddresses(): Snapshot {
    Snapshot(
      map["ann" := UserRow("ann", "Ann", None, None, None, "ann@example.org", true, None, 1)],
      ["ann"],
      map["ann" := User],
      [EmailRecord(0, "ann", "ann@example.org", true, true), EmailRecord(1, "ann", "ann@example.com", false, false)])
  }

  /** countUsers counts join rows, so a user with two addresses counts twice,
      while getUsers lists that user once. */
  lemma CountUsersCountsEmailRows()
    ensures CountUsers(AnnWithTwoAddresses(), None) == 2
    ensures |UsersMatching(AnnWithTwoAddresses(), None)| == 1
  {
    var s := AnnWithTwoAddresses();
    var mine := EmailsOf(s.emails, "ann");
    assert mine == s.emails by {
      FilterAll(s.emails, (e: EmailRecord) => e.userId == "ann");
    }
    var rows := RowsOf(s, "ann");
    assert |rows| == 2;
    FilterAll(rows, BaseKeep(None));
    assert s.order[1..] == [];
    assert rows[0] in rows;
  }
}
