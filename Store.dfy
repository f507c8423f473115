/** The database the user-identity core works on, as one object holding its
    tables: users, server_acl and user_emails, plus stream_acl and the server
    invites that user deletion clears. The methods of `Database` are the
    email-ledger repository operations (createUserEmail, deleteUserEmail,
    setPrimaryUserEmail, updateUserEmail, markUserAsVerified); the finders are
    functions over the user_emails table. */
module Store {
  import opened Seqs
  import opened Text
  import opened Schema

  /** A `findEmail` query: every criterion given must hold, and the address is
      compared case-insensitively. */
  datatype EmailQuery = EmailQuery(
    id: Option<EmailId>,
    email: Option<string>,
    userId: Option<UserId>,
    primary: Option<bool>)

  predicate Matches(e: EmailRecord, q: EmailQuery) {
    && (q.id.None? || e.id == q.id.value)
    && (q.email.None? || Lower(e.email) == Lower(q.email.value))
    && (q.userId.None? || e.userId == q.userId.value)
    && (q.primary.None? || e.primary == q.primary.value)
  }

  /** `findEmailFactory`: a record matching the query, or none when no record does. */
  function FindEmail(emails: seq<EmailRecord>, q: EmailQuery): (r: Option<EmailRecord>)
    ensures r.Some? ==> r.value in emails && Matches(r.value, q)
    ensures r.None? <==> forall e | e in emails :: !Matches(e, q)
  {
    FindFirst(emails, (e: EmailRecord) => Matches(e, q))
  }

  /** Lookups ignore the case of the address asked for. */
  lemma FindEmailIgnoresCase(emails: seq<EmailRecord>, q: EmailQuery, address: string)
    requires q.email.Some? && Lower(q.email.value) == Lower(address)
    ensures FindEmail(emails, q) == FindEmail(emails, q.(email := Some(address)))
  {
    var q' := q.(email := Some(address));
    FindFirstAgree(emails, (e: EmailRecord) => Matches(e, q), (e: EmailRecord) => Matches(e, q'));
  }

  /** `findPrimaryEmailForUserFactory`: `findEmail` restricted to primary records. */
  function FindPrimaryEmailForUser(emails: seq<EmailRecord>, email: Option<string>, userId: Option<UserId>): (r: Option<EmailRecord>)
    ensures r.Some? ==> r.value in emails && r.value.primary
    ensures r.Some? && email.Some? ==> Lower(r.value.email) == Lower(email.value)
    ensures r.Some? && userId.Some? ==> r.value.userId == userId.value
    ensures r.None? <==> forall e | e in emails && e.primary :: !Matches(e, EmailQuery(None, email, userId, None))
  {
    FindEmail(emails, EmailQuery(None, email, userId, Some(true)))
  }

  /** In a sound ledger a primary address, in any case, finds its own record. */
  lemma FindPrimaryByAddress(emails: seq<EmailRecord>, e: EmailRecord, spelling: string)
    requires LedgerSound(emails) && e in emails && e.primary && Lower(spelling) == Lower(e.email)
    ensures FindPrimaryEmailForUser(emails, Some(spelling), None) == Some(e)
  {
    var f := FindPrimaryEmailForUser(emails, Some(spelling), None);
    assert !(forall x | x in emails && x.primary :: !Matches(x, EmailQuery(None, Some(spelling), None, None)));
    AddressIsUnique(emails, f.value, e);
  }

  /** Some record holds the address, compared case-insensitively. */
  predicate AddressInUse(emails: seq<EmailRecord>, email: string) {
    exists e | e in emails :: Lower(e.email) == Lower(email)
  }

  /** The record with this id, if it belongs to `userId`. */
  function RecordOf(emails: seq<EmailRecord>, id: EmailId, userId: UserId): Option<EmailRecord> {
    FindEmail(emails, EmailQuery(Some(id), None, Some(userId), None))
  }

  /** How `updateUserEmail` picks its record: by id or by address, always within one user. */
  datatype EmailSelector = ById(id: EmailId) | ByAddress(email: string)

  function SelectorQuery(sel: EmailSelector, userId: UserId): EmailQuery {
    match sel
    case ById(id) => EmailQuery(Some(id), None, Some(userId), None)
    case ByAddress(email) => EmailQuery(None, Some(email), Some(userId), None)
  }

  /** The columns `updateUserEmail` may set. */
  datatype EmailUpdate = EmailUpdate(email: Option<string>, primary: Option<bool>, verified: Option<bool>)

  /** A record with an update applied; a new address is stored lower-cased. */
  function Updated(e: EmailRecord, u: EmailUpdate): (r: EmailRecord)
    ensures r.id == e.id && r.userId == e.userId
    ensures u.email.Some? ==> r.email == Lower(u.email.value) && IsLowercase(r.email)
  {
    LowerIsLowercase(if u.email.Some? then u.email.value else "");
    EmailRecord(
      e.id,
      e.userId,
      if u.email.Some? then Lower(u.email.value) else e.email,
      if u.primary.Some? then u.primary.value else e.primary,
      if u.verified.Some? then u.verified.value else e.verified)
  }

  /** The table after deleting the record with this id. */
  function WithoutRecord(emails: seq<EmailRecord>, id: EmailId): seq<EmailRecord> {
    Filter(emails, (e: EmailRecord) => e.id != id)
  }

  /** Appending a record compatible with every existing one keeps the ledger sound. */
  lemma AppendSound(emails: seq<EmailRecord>, record: EmailRecord)
    requires LedgerSound(emails)
    requires forall e | e in emails :: Compatible(e, record)
    ensures LedgerSound(emails + [record])
  {
    var t := emails + [record];
    forall i, j | 0 <= i < j < |t| ensures Compatible(t[i], t[j]) {
      if j < |emails| {
        assert t[i] == emails[i] && t[j] == emails[j];
      } else {
        assert t[i] in emails;
      }
    }
  }

  /** Rewriting records without touching their ids, their owners or their
      addresses, and without adding a primary to a user that already had one,
      keeps the ledger sound. */
  lemma RewriteSound(before: seq<EmailRecord>, after: seq<EmailRecord>)
    requires LedgerSound(before) && |after| == |before|
    requires forall i | 0 <= i < |before| ::
      after[i].id == before[i].id && after[i].userId == before[i].userId &&
      Lower(after[i].email) == Lower(before[i].email) &&
      (after[i].primary ==> before[i].primary)
    ensures LedgerSound(after)
  {
    forall i, j | 0 <= i < j < |after| ensures Compatible(after[i], after[j]) {
      assert Compatible(before[i], before[j]);
    }
  }

  class Database {
    var users: map<UserId, UserRow>
    var order: seq<UserId>
    var acl: map<UserId, ServerRole>
    var emails: seq<EmailRecord>
    var nextEmailId: EmailId
    var streams: map<StreamId, map<UserId, StreamRole>>
    var invites: seq<Invite>

    /** The tables the queries read. */
    function Tables(): Snapshot
      reads this`users, this`order, this`acl, this`emails
    {
      Snapshot(users, order, acl, emails)
    }

    /** The table constraints, with every email id drawn from the counter. A
        user may still lack its first email record here (half-way through
        user creation). */
    ghost predicate LedgerOk()
      reads this`users, this`order, this`acl, this`emails, this`nextEmailId
    {
      Consistent(Tables()) && IdsBelow(emails, nextEmailId)
    }

    /** The full invariant: the constraints, and no user without an email record. */
    ghost predicate Valid()
      reads this`users, this`order, this`acl, this`emails, this`nextEmailId
    {
      LedgerOk() && EveryUserHasEmail(Tables())
    }

    /** An empty database. */
    constructor ()
      ensures Valid()
      ensures users == map[] && order == [] && acl == map[] && emails == []
      ensures nextEmailId == 0 && streams == map[] && invites == []
    {
      users, order, acl, emails := map[], [], map[], [];
      nextEmailId, streams, invites := 0, map[], [];
    }

    /** `createUserEmail`: refuses a second primary record for a user, then
        inserts the record with its address lower-cased; the table's
        case-insensitive unique constraint and its foreign key to users
        reject a taken address and an unknown user. */
    method CreateUserEmail(userId: UserId, email: string, primary: bool, verified: bool)
      returns (r: Result<EmailRecord, Error>)
      requires LedgerOk()
      modifies this`emails, this`nextEmailId
      ensures LedgerOk()
      ensures primary && HasPrimary(old(emails), userId) ==> r == Failure(PrimaryEmailExists)
      ensures !(primary && HasPrimary(old(emails), userId)) && AddressInUse(old(emails), email) ==>
        r == Failure(EmailConflict)
      ensures !(primary && HasPrimary(old(emails), userId)) && !AddressInUse(old(emails), email) && userId !in users ==>
        r == Failure(UnknownUser)
      ensures r.Success? <==>
        !(primary && HasPrimary(old(emails), userId)) && !AddressInUse(old(emails), email) && userId in users
      ensures r.Failure? ==> emails == old(emails) && nextEmailId == old(nextEmailId)
      ensures r.Success? ==>
        && r.value == EmailRecord(old(nextEmailId), userId, Lower(email), primary, verified)
        && IsLowercase(r.value.email)
        && emails == old(emails) + [r.value]
        && nextEmailId == old(nextEmailId) + 1
    {
      if primary && FindEmail(emails, EmailQuery(None, None, Some(userId), Some(true))).Some? {
        return Failure(PrimaryEmailExists);
      }
      if FindEmail(emails, EmailQuery(None, Some(email), None, None)).Some? {
        return Failure(EmailConflict);
      }
      if userId !in users {
        return Failure(UnknownUser);
      }
      LowerIsLowercase(email);
      var record := EmailRecord(nextEmailId, userId, Lower(email), primary, verified);
      forall e | e in emails ensures Compatible(e, record) {
        assert !Matches(e, EmailQuery(None, Some(email), None, None));
        assert primary ==> !Matches(e, EmailQuery(None, None, Some(userId), Some(true)));
      }
      AppendSound(emails, record);
      emails := emails + [record];
      nextEmailId := nextEmailId + 1;
      r := Success(record);
    }

    /** `deleteUserEmail`: refuses to delete a user's last record, then a record
        that is not the user's, then the primary record; otherwise deletes it. */
    method DeleteUserEmail(id: EmailId, userId: UserId) returns (r: Result<bool, Error>)
      requires LedgerOk()
      modifies this`emails
      ensures LedgerOk()
      ensures r.Failure? <==> DeleteCheck(old(emails), id, userId).Failure?
      ensures r.Failure? ==> r.error == DeleteCheck(old(emails), id, userId).error && emails == old(emails)
      ensures r.Success? ==> r.value && emails == WithoutRecord(old(emails), id)
      ensures r.Success? ==> RecordOf(emails, id, userId).None?
      ensures old(EveryUserHasEmail(Tables())) ==> EveryUserHasEmail(Tables())
      ensures old(EveryUserHasPrimary(Tables())) ==> EveryUserHasPrimary(Tables())
    {
      var checked := DeleteCheck(emails, id, userId);
      if checked.Failure? {
        return Failure(checked.error);
      }
      emails := WithoutRecord(emails, id);
      r := Success(true);
      assert Tables() == old(Tables()).(emails := emails);
      DeleteKeepsTables(old(Tables()), nextEmailId, checked.value);
    }

    /** `setPrimaryUserEmail`: the user's record with this id becomes its only
        primary record, demoting the previous one. */
    method SetPrimaryUserEmail(id: EmailId, userId: UserId) returns (r: Result<bool, Error>)
      requires LedgerOk()
      modifies this`emails
      ensures LedgerOk()
      ensures RecordOf(old(emails), id, userId).None? ==> r == Failure(EmailNotFound) && emails == old(emails)
      ensures RecordOf(old(emails), id, userId).Some? ==> r == Success(true)
      ensures r.Success? ==> emails == Promote(old(emails), id, userId)
      ensures r.Success? ==> forall e | e in emails && e.userId == userId :: e.primary <==> e.id == id
      ensures old(EveryUserHasEmail(Tables())) ==> EveryUserHasEmail(Tables())
      ensures old(EveryUserHasPrimary(Tables())) ==> EveryUserHasPrimary(Tables())
    {
      if RecordOf(emails, id, userId).None? {
        return Failure(EmailNotFound);
      }
      emails := Promote(emails, id, userId);
      r := Success(true);
      assert Tables() == old(Tables()).(emails := emails);
      PromoteKeepsTables(old(Tables()), nextEmailId, id, userId);
    }

    /** `updateUserEmail`: the record `UpdateCheck` picks, with the update applied. */
    method UpdateUserEmail(sel: EmailSelector, userId: UserId, update: EmailUpdate)
      returns (r: Result<EmailRecord, Error>)
      requires LedgerOk()
      modifies this`emails
      ensures LedgerOk()
      ensures r.Failure? <==> UpdateCheck(old(emails), sel, userId, update).Failure?
      ensures r.Failure? ==> r == UpdateCheck(old(emails), sel, userId, update) && emails == old(emails)
      ensures r.Success? ==>
        && r.value == Updated(UpdateCheck(old(emails), sel, userId, update).value, update)
        && emails == Replace(old(emails), r.value.id, r.value)
      ensures old(EveryUserHasEmail(Tables())) ==> EveryUserHasEmail(Tables())
      ensures old(EveryUserHasPrimary(Tables())) && update.primary != Some(false) ==> EveryUserHasPrimary(Tables())
    {
      var checked := UpdateCheck(emails, sel, userId, update);
      if checked.Failure? {
        return checked;
      }
      var record := Updated(checked.value, update);
      emails := Replace(emails, checked.value.id, record);
      r := Success(record);
      assert Tables() == old(Tables()).(emails := emails);
      ReplaceKeepsTables(old(Tables()), nextEmailId, checked.value, update);
    }

    /** `markUserAsVerified`: every record holding the address, compared
        case-insensitively, becomes verified; the answer says whether one did. */
    method MarkUserAsVerified(email: string) returns (r: bool)
      requires LedgerOk()
      modifies this`emails
      ensures LedgerOk()
      ensures r <==> AddressInUse(old(emails), email)
      ensures emails == MarkVerified(old(emails), email)
      ensures forall e | e in emails && Lower(e.email) == Lower(email) :: e.verified
      ensures old(EveryUserHasEmail(Tables())) ==> EveryUserHasEmail(Tables())
      ensures old(EveryUserHasPrimary(Tables())) ==> EveryUserHasPrimary(Tables())
    {
      r := FindEmail(emails, EmailQuery(None, Some(email), None, None)).Some?;
      emails := MarkVerified(emails, email);
      assert Tables() == old(Tables()).(emails := emails);
      MarkVerifiedKeepsTables(old(Tables()), nextEmailId, email);
    }
  }

  /** The checks of `deleteUserEmail`, in order: the user's last record, a
      record that is not the user's, the primary record. On success, the
      record to delete. */
  function DeleteCheck(emails: seq<EmailRecord>, id: EmailId, userId: UserId): (r: Result<EmailRecord, Error>)
    ensures |EmailsOf(emails, userId)| == 1 ==> r == Failure(LastUserEmail)
    ensures |EmailsOf(emails, userId)| != 1 && RecordOf(emails, id, userId).None? ==> r == Failure(EmailNotFound)
    ensures (|EmailsOf(emails, userId)| != 1 && RecordOf(emails, id, userId).Some? &&
             RecordOf(emails, id, userId).value.primary) ==> r == Failure(PrimaryEmailDelete)
    ensures r.Success? <==>
      |EmailsOf(emails, userId)| != 1 && RecordOf(emails, id, userId).Some? && !RecordOf(emails, id, userId).value.primary
    ensures r.Success? ==> r.value in emails && r.value.id == id && r.value.userId == userId && !r.value.primary
  {
    if |EmailsOf(emails, userId)| == 1 then Failure(LastUserEmail)
    else match RecordOf(emails, id, userId)
      case None => Failure(EmailNotFound)
      case Some(target) => if target.primary then Failure(PrimaryEmailDelete) else Success(target)
  }

  /** Deleting a non-primary record of a user with another record keeps the
      ledger sound, every user's record and every primary, and the record is
      gone. */
  lemma DeleteSound(emails: seq<EmailRecord>, target: EmailRecord)
    requires LedgerSound(emails) && target in emails && !target.primary
    requires |EmailsOf(emails, target.userId)| != 1
    ensures LedgerSound(WithoutRecord(emails, target.id))
    ensures forall e | e in WithoutRecord(emails, target.id) :: e in emails
    ensures forall u | HasEmail(emails, u) :: HasEmail(WithoutRecord(emails, target.id), u)
    ensures forall u | HasPrimary(emails, u) :: HasPrimary(WithoutRecord(emails, target.id), u)
    ensures RecordOf(WithoutRecord(emails, target.id), target.id, target.userId).None?
  {
    var after := WithoutRecord(emails, target.id);
    FilterPairwise(emails, (e: EmailRecord) => e.id != target.id, Compatible);
    // Only the target carries its id, so every other record survives.
    forall e | e in emails && e != target ensures e in after {
      if e.id == target.id {
        IdIsUnique(emails, e, target);
      }
    }
    // The target's owner keeps a record: of two of its records, one is not the target.
    var mine := EmailsOf(emails, target.userId);
    assert target in mine;
    assert |mine| >= 2;
    FilterPairwise(emails, (e: EmailRecord) => e.userId == target.userId, Compatible);
    assert Compatible(mine[0], mine[1]);
    assert mine[0] in emails && mine[1] in emails;
    assert mine[0] in after || mine[1] in after;
  }

  /** The checks of `updateUserEmail`, in order: marking a record primary while
      the user has one, a selector that names no record of the user, a new
      address another record holds. On success, the record to update. */
  function UpdateCheck(emails: seq<EmailRecord>, sel: EmailSelector, userId: UserId, update: EmailUpdate)
    : (r: Result<EmailRecord, Error>)
    ensures update.primary == Some(true) && HasPrimary(emails, userId) ==> r == Failure(PrimaryEmailExists)
    ensures (!(update.primary == Some(true) && HasPrimary(emails, userId)) &&
             FindEmail(emails, SelectorQuery(sel, userId)).None?) ==> r == Failure(EmailNotFound)
    ensures r.Success? <==>
      && !(update.primary == Some(true) && HasPrimary(emails, userId))
      && FindEmail(emails, SelectorQuery(sel, userId)).Some?
      && !(update.email.Some? &&
           HeldByOther(emails, FindEmail(emails, SelectorQuery(sel, userId)).value.id, update.email.value))
    ensures (!(update.primary == Some(true) && HasPrimary(emails, userId)) &&
             FindEmail(emails, SelectorQuery(sel, userId)).Some? && r.Failure?) ==> r == Failure(EmailConflict)
    ensures r.Success? ==> r.value == FindEmail(emails, SelectorQuery(sel, userId)).value && r.value.userId == userId
  {
    if update.primary == Some(true) && FindEmail(emails, EmailQuery(None, None, Some(userId), Some(true))).Some? then
      Failure(PrimaryEmailExists)
    else match FindEmail(emails, SelectorQuery(sel, userId))
      case None => Failure(EmailNotFound)
      case Some(target) =>
        if update.email.Some? && FindFirst(emails, (e: EmailRecord) => e.id != target.id && Lower(e.email) == Lower(update.email.value)).Some? then
          Failure(EmailConflict)
        else
          assert update.primary == Some(true) ==>
            forall e | e in emails :: !Matches(e, EmailQuery(None, None, Some(userId), Some(true)));
          Success(target)
  }

  /** An update setting `primary` to false is allowed on a user's only primary
      record, and leaves that user with no primary record at all. */
  lemma DemotionLeavesNoPrimary(e: EmailRecord)
    requires e.primary
    ensures UpdateCheck([e], ById(e.id), e.userId, EmailUpdate(None, Some(false), None)) == Success(e)
    ensures !HasPrimary(Replace([e], e.id, Updated(e, EmailUpdate(None, Some(false), None))), e.userId)
  {
    var u := EmailUpdate(None, Some(false), None);
    assert Matches(e, SelectorQuery(ById(e.id), e.userId));
    assert Replace([e], e.id, Updated(e, u)) == [Updated(e, u)];
  }

  /** Rewriting the email table in place keeps the table constraints and
      every user's having a record. */
  lemma RewriteKeepsTables(s: Snapshot, next: nat, after: seq<EmailRecord>)
    requires Consistent(s) && IdsBelow(s.emails, next)
    requires LedgerSound(after) && SameOwners(s.emails, after)
    ensures Consistent(s.(emails := after)) && IdsBelow(after, next)
    ensures EveryUserHasEmail(s) ==> EveryUserHasEmail(s.(emails := after))
  {
    forall e | e in after ensures e.userId in s.users && e.id < next {
      var i :| 0 <= i < |after| && after[i] == e;
      assert s.emails[i] in s.emails;
    }
    SameOwnersKeep(s.emails, after);
  }

  /** The table constraints hold after a change to the email table, and
      neither every user's having a record nor (when `primaries`) every user's
      having a primary record is lost. */
  predicate EmailsKept(s: Snapshot, next: nat, after: seq<EmailRecord>, primaries: bool) {
    && Consistent(s.(emails := after)) && IdsBelow(after, next)
    && (EveryUserHasEmail(s) ==> EveryUserHasEmail(s.(emails := after)))
    && (primaries && EveryUserHasPrimary(s) ==> EveryUserHasPrimary(s.(emails := after)))
  }

  lemma DeleteKeepsTables(s: Snapshot, next: nat, target: EmailRecord)
    requires Consistent(s) && IdsBelow(s.emails, next)
    requires target in s.emails && !target.primary && |EmailsOf(s.emails, target.userId)| != 1
    ensures EmailsKept(s, next, WithoutRecord(s.emails, target.id), true)
    ensures RecordOf(WithoutRecord(s.emails, target.id), target.id, target.userId).None?
  {
    DeleteSound(s.emails, target);
  }

  lemma PromoteKeepsTables(s: Snapshot, next: nat, id: EmailId, userId: UserId)
    requires Consistent(s) && IdsBelow(s.emails, next) && RecordOf(s.emails, id, userId).Some?
    ensures EmailsKept(s, next, Promote(s.emails, id, userId), true)
    ensures forall e | e in Promote(s.emails, id, userId) && e.userId == userId :: e.primary <==> e.id == id
  {
    PromoteSound(s.emails, id, userId);
    RewriteKeepsTables(s, next, Promote(s.emails, id, userId));
  }

  lemma ReplaceKeepsTables(s: Snapshot, next: nat, target: EmailRecord, update: EmailUpdate)
    requires Consistent(s) && IdsBelow(s.emails, next) && target in s.emails
    requires update.primary == Some(true) ==> forall e | e in s.emails :: !(e.userId == target.userId && e.primary)
    requires update.email.Some? ==> !HeldByOther(s.emails, target.id, update.email.value)
    ensures EmailsKept(s, next, Replace(s.emails, target.id, Updated(target, update)), update.primary != Some(false))
  {
    ReplaceSound(s.emails, target, update);
    RewriteKeepsTables(s, next, Replace(s.emails, target.id, Updated(target, update)));
  }

  lemma MarkVerifiedKeepsTables(s: Snapshot, next: nat, email: string)
    requires Consistent(s) && IdsBelow(s.emails, next)
    ensures EmailsKept(s, next, MarkVerified(s.emails, email), true)
    ensures forall e | e in MarkVerified(s.emails, email) && Lower(e.email) == Lower(email) :: e.verified
  {
    MarkVerifiedSound(s.emails, email);
    RewriteKeepsTables(s, next, MarkVerified(s.emails, email));
  }

  /** A rewrite of the table in place: the same records by position, each
      keeping its id and its owner. */
  predicate SameOwners(before: seq<EmailRecord>, after: seq<EmailRecord>) {
    |after| == |before| &&
    forall i | 0 <= i < |before| :: after[i].id == before[i].id && after[i].userId == before[i].userId
  }

  /** Such a rewrite keeps every user's having a record. */
  lemma SameOwnersKeep(before: seq<EmailRecord>, after: seq<EmailRecord>)
    requires SameOwners(before, after)
    ensures forall u | HasEmail(before, u) :: HasEmail(after, u)
  {
    forall u | HasEmail(before, u) ensures HasEmail(after, u) {
      var e :| e in before && e.userId == u;
      var i :| 0 <= i < |before| && before[i] == e;
      assert after[i] in after;
    }
  }

  /** The records of `userId` with the promoted one primary and the rest not. */
  function Promote(emails: seq<EmailRecord>, id: EmailId, userId: UserId): (r: seq<EmailRecord>)
    ensures SameOwners(emails, r)
    ensures forall i | 0 <= i < |r| :: r[i].email == emails[i].email && r[i].verified == emails[i].verified
    ensures forall i | 0 <= i < |r| ::
      r[i].primary == if emails[i].userId == userId then emails[i].id == id else emails[i].primary
  {
    seq(|emails|, i requires 0 <= i < |emails| =>
      emails[i].(primary := if emails[i].userId == userId then emails[i].id == id else emails[i].primary))
  }

  /** Promotion keeps the ledger sound, leaves the chosen record the user's only
      primary, and takes no user's primary away. */
  lemma PromoteSound(emails: seq<EmailRecord>, id: EmailId, userId: UserId)
    requires LedgerSound(emails) && RecordOf(emails, id, userId).Some?
    ensures LedgerSound(Promote(emails, id, userId))
    ensures forall e | e in Promote(emails, id, userId) && e.userId == userId :: e.primary <==> e.id == id
    ensures forall u | HasPrimary(emails, u) :: HasPrimary(Promote(emails, id, userId), u)
  {
    var p := Promote(emails, id, userId);
    forall i, j | 0 <= i < j < |p| ensures Compatible(p[i], p[j]) {
      assert Compatible(emails[i], emails[j]);
    }
    forall e | e in p && e.userId == userId ensures e.primary <==> e.id == id {
      var i :| 0 <= i < |p| && p[i] == e;
    }
    var target := RecordOf(emails, id, userId).value;
    forall u | HasPrimary(emails, u) ensures HasPrimary(p, u) {
      var e :| e in emails && e.userId == u && e.primary;
      var i :| 0 <= i < |emails| && emails[i] == e;
      if u == userId {
        var k :| 0 <= k < |emails| && emails[k] == target;
        assert p[k] in p && p[k].primary;
      } else {
        assert p[i] in p && p[i].primary;
      }
    }
  }

  /** Another record than `id` holds the address, compared case-insensitively. */
  predicate HeldByOther(emails: seq<EmailRecord>, id: EmailId, email: string) {
    exists e | e in emails :: e.id != id && Lower(e.email) == Lower(email)
  }

  /** The table with the record carrying `id` replaced by `record`. */
  function Replace(emails: seq<EmailRecord>, id: EmailId, record: EmailRecord): (r: seq<EmailRecord>)
    ensures |r| == |emails|
    ensures forall i | 0 <= i < |r| :: r[i] == if emails[i].id == id then record else emails[i]
  {
    seq(|emails|, i requires 0 <= i < |emails| => if emails[i].id == id then record else emails[i])
  }

  /** An update that adds no second primary and takes no address held elsewhere
      keeps the ledger sound, and it takes a primary away only when it demotes. */
  lemma ReplaceSound(emails: seq<EmailRecord>, target: EmailRecord, update: EmailUpdate)
    requires LedgerSound(emails) && target in emails
    requires update.primary == Some(true) ==> forall e | e in emails :: !(e.userId == target.userId && e.primary)
    requires update.email.Some? ==> !HeldByOther(emails, target.id, update.email.value)
    ensures SameOwners(emails, Replace(emails, target.id, Updated(target, update)))
    ensures LedgerSound(Replace(emails, target.id, Updated(target, update)))
    ensures update.primary != Some(false) ==>
      forall u | HasPrimary(emails, u) :: HasPrimary(Replace(emails, target.id, Updated(target, update)), u)
  {
    var record := Updated(target, update);
    var p := Replace(emails, target.id, record);
    if update.email.Some? {
      LowerIsLowercase(update.email.value);
    }
    assert Lower(record.email) == if update.email.Some? then Lower(update.email.value) else Lower(target.email);
    forall i | 0 <= i < |emails| && emails[i].id == target.id ensures emails[i] == target {
      IdIsUnique(emails, emails[i], target);
    }
    forall i, j | 0 <= i < j < |p| ensures Compatible(p[i], p[j]) {
      assert Compatible(emails[i], emails[j]);
      assert emails[i] in emails && emails[j] in emails;
    }
    if update.primary != Some(false) {
      forall u | HasPrimary(emails, u) ensures HasPrimary(p, u) {
        var e :| e in emails && e.userId == u && e.primary;
        var i :| 0 <= i < |emails| && emails[i] == e;
        assert p[i] in p && p[i].primary;
      }
    }
  }

  /** The table with every record holding the address marked verified. */
  function MarkVerified(emails: seq<EmailRecord>, email: string): (r: seq<EmailRecord>)
    ensures SameOwners(emails, r)
    ensures forall i | 0 <= i < |r| ::
      r[i] == if Lower(emails[i].email) == Lower(email) then emails[i].(verified := true) else emails[i]
  {
    seq(|emails|, i requires 0 <= i < |emails| =>
      if Lower(emails[i].email) == Lower(email) then emails[i].(verified := true) else emails[i])
  }

  /** Marking records verified keeps the ledger sound and every primary, and
      leaves every record holding the address verified. */
  lemma MarkVerifiedSound(emails: seq<EmailRecord>, email: string)
    requires LedgerSound(emails)
    ensures LedgerSound(MarkVerified(emails, email))
    ensures forall u | HasPrimary(emails, u) :: HasPrimary(MarkVerified(emails, email), u)
    ensures forall e | e in MarkVerified(emails, email) && Lower(e.email) == Lower(email) :: e.verified
  {
    var p := MarkVerified(emails, email);
    RewriteSound(emails, p);
    forall u | HasPrimary(emails, u) ensures HasPrimary(p, u) {
      var e :| e in emails && e.userId == u && e.primary;
      var i :| 0 <= i < |emails| && emails[i] == e;
      assert p[i] in p && p[i].primary;
    }
    forall e | e in p && Lower(e.email) == Lower(email) ensures e.verified {
      var i :| 0 <= i < |p| && p[i] == e;
    }
  }

  /** In a sound ledger an id names at most one record. */
  lemma {:induction false} IdIsUnique(emails: seq<EmailRecord>, a: EmailRecord, b: EmailRecord)
    requires LedgerSound(emails)
    requires a in emails && b in emails && a.id == b.id
    ensures a == b
  {
    var i :| 0 <= i < |emails| && emails[i] == a;
    var j :| 0 <= j < |emails| && emails[j] == b;
  }
}
