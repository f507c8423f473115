/** The behaviour the email-ledger tests check. A user who has just been
    created owns exactly one record, its primary one (`first`), and most
    tests give it an extra non-primary record (`second`). The lemmas state
    each outcome for every such ledger, on the check or the rewrite the
    repository operation is specified by; the methods replay each test as
    its sequence of calls on the database. */
module EmailScenarios {
  import opened Seqs
  import opened Text
  import opened Schema
  import opened Store
  import opened UsersService

  /** No record of the ledger belongs to the user. */
  predicate Fresh(emails: seq<EmailRecord>, userId: UserId) {
    forall e | e in emails :: e.userId != userId
  }

  /** A user the ledger knows nothing about has no records. */
  lemma {:induction false} FreshHasNoRecords(emails: seq<EmailRecord>, userId: UserId)
    requires Fresh(emails, userId)
    ensures EmailsOf(emails, userId) == []
  {
    if emails != [] {
      assert emails[0] in emails;
      FreshHasNoRecords(emails[1..], userId);
    }
  }

  /** The ledger of a new user with a second record. */
  function WithSecond(emails: seq<EmailRecord>, first: EmailRecord, second: EmailRecord): seq<EmailRecord> {
    emails + [first] + [second]
  }

  /** The ledger holding a newly created user's records: `first` is its
      primary record, `second` a record of the same user that is not. */
  predicate NewUserLedger(emails: seq<EmailRecord>, first: EmailRecord, second: EmailRecord) {
    && LedgerSound(WithSecond(emails, first, second))
    && Fresh(emails, first.userId)
    && second.userId == first.userId
    && first.primary && !second.primary
  }

  /** Deleting the only record of a user is refused with the message
      "Cannot delete last user email". */
  lemma {:induction false} LastEmailIsKept(emails: seq<EmailRecord>, first: EmailRecord)
    requires Fresh(emails, first.userId)
    ensures DeleteCheck(emails + [first], first.id, first.userId) == Failure(LastUserEmail)
    ensures Message(LastUserEmail) == Some("Cannot delete last user email")
  {
    FreshHasNoRecords(emails, first.userId);
    FilterAppend(emails, first, (e: EmailRecord) => e.userId == first.userId);
  }

  /** Both records of the new user are its records, and nobody else's. */
  lemma {:induction false} NewUserOwnsTwo(emails: seq<EmailRecord>, first: EmailRecord, second: EmailRecord)
    requires NewUserLedger(emails, first, second)
    ensures |EmailsOf(WithSecond(emails, first, second), first.userId)| == 2
  {
    var keep := (e: EmailRecord) => e.userId == first.userId;
    FreshHasNoRecords(emails, first.userId);
    FilterAppend(emails, first, keep);
    FilterAppend(emails + [first], second, keep);
  }

  /** In the new user's ledger an id names the record it was given. */
  lemma RecordOfNewUser(emails: seq<EmailRecord>, first: EmailRecord, second: EmailRecord, target: EmailRecord)
    requires NewUserLedger(emails, first, second)
    requires target == first || target == second
    ensures RecordOf(WithSecond(emails, first, second), target.id, first.userId) == Some(target)
  {
    var all := WithSecond(emails, first, second);
    assert target in all;
    var found := RecordOf(all, target.id, first.userId);
    assert found.Some?;
    IdIsUnique(all, found.value, target);
  }

  /** Deleting the primary record of a user with two records is refused with
      the message "Cannot delete primary email". */
  lemma PrimaryEmailIsKept(emails: seq<EmailRecord>, first: EmailRecord, second: EmailRecord)
    requires NewUserLedger(emails, first, second)
    ensures DeleteCheck(WithSecond(emails, first, second), first.id, first.userId) == Failure(PrimaryEmailDelete)
    ensures Message(PrimaryEmailDelete) == Some("Cannot delete primary email")
  {
    NewUserOwnsTwo(emails, first, second);
    RecordOfNewUser(emails, first, second, first);
  }

  /** Deleting the second record succeeds, and a lookup of the user's
      non-primary record with its address then finds nothing. */
  lemma SecondEmailIsDeleted(emails: seq<EmailRecord>, first: EmailRecord, second: EmailRecord)
    requires NewUserLedger(emails, first, second)
    ensures DeleteCheck(WithSecond(emails, first, second), second.id, first.userId) == Success(second)
    ensures FindEmail(WithoutRecord(WithSecond(emails, first, second), second.id),
                      EmailQuery(None, Some(second.email), Some(first.userId), Some(false))).None?
  {
    var all := WithSecond(emails, first, second);
    NewUserOwnsTwo(emails, first, second);
    RecordOfNewUser(emails, first, second, second);
    var q := EmailQuery(None, Some(second.email), Some(first.userId), Some(false));
    var found := FindEmail(WithoutRecord(all, second.id), q);
    if found.Some? {
      // The address belongs to `second` alone, and `second` is gone.
      AddressIsUnique(all, found.value, second);
      assert false;
    }
  }

  /** After promoting the second record, the user's records are the last
      two: the first demoted, the second primary. */
  lemma PromotedRecords(emails: seq<EmailRecord>, first: EmailRecord, second: EmailRecord)
    requires NewUserLedger(emails, first, second)
    ensures var p := Promote(WithSecond(emails, first, second), second.id, first.userId);
      && |p| == |emails| + 2
      && p[|emails|] == first.(primary := false) && p[|emails| + 1] == second.(primary := true)
      && forall i | 0 <= i < |emails| :: p[i].userId != first.userId
  {
    var all := WithSecond(emails, first, second);
    assert Compatible(all[|emails|], all[|emails| + 1]);
    forall i | 0 <= i < |emails| ensures all[i].userId != first.userId {
      assert all[i] in emails;
    }
  }

  /** Making the second record primary demotes the first: the user's
      non-primary record is then the first and its primary one the second. */
  lemma SecondEmailIsPromoted(emails: seq<EmailRecord>, first: EmailRecord, second: EmailRecord)
    requires NewUserLedger(emails, first, second)
    ensures RecordOf(WithSecond(emails, first, second), second.id, first.userId).Some?
    ensures FindEmail(Promote(WithSecond(emails, first, second), second.id, first.userId),
                      EmailQuery(None, None, Some(first.userId), Some(false))) == Some(first.(primary := false))
    ensures FindEmail(Promote(WithSecond(emails, first, second), second.id, first.userId),
                      EmailQuery(None, None, Some(first.userId), Some(true))) == Some(second.(primary := true))
  {
    RecordOfNewUser(emails, first, second, second);
    PromotedRecords(emails, first, second);
    var p := Promote(WithSecond(emails, first, second), second.id, first.userId);
    FindOnlyMatch(p, |emails|, EmailQuery(None, None, Some(first.userId), Some(false)));
    FindOnlyMatch(p, |emails| + 1, EmailQuery(None, None, Some(first.userId), Some(true)));
  }

  /** A lookup that only one position of the table matches finds that record. */
  lemma FindOnlyMatch(p: seq<EmailRecord>, n: nat, q: EmailQuery)
    requires n < |p| && Matches(p[n], q)
    requires forall i | 0 <= i < |p| && i != n :: !Matches(p[i], q)
    ensures FindEmail(p, q) == Some(p[n])
  {
    assert p[n] in p;
    var i :| 0 <= i < |p| && p[i] == FindEmail(p, q).value;
  }

  /** Marking the second record primary while the first is primary is
      refused with "A primary email already exists for this user". */
  lemma SecondPrimaryIsRefused(emails: seq<EmailRecord>, first: EmailRecord, second: EmailRecord)
    requires NewUserLedger(emails, first, second)
    ensures UpdateCheck(WithSecond(emails, first, second), ById(second.id), first.userId,
                        EmailUpdate(None, Some(true), None)) == Failure(PrimaryEmailExists)
    ensures Message(PrimaryEmailExists) == Some("A primary email already exists for this user")
  {
    assert first in WithSecond(emails, first, second);
  }

  /** After marking an address verified, looking it up finds a verified record. */
  lemma VerifiedAddressIsFound(emails: seq<EmailRecord>, email: string)
    requires AddressInUse(emails, email)
    ensures FindEmail(MarkVerified(emails, email), EmailQuery(None, Some(email), None, None)).Some?
    ensures FindEmail(MarkVerified(emails, email), EmailQuery(None, Some(email), None, None)).value.verified
  {
    var e :| e in emails && Lower(e.email) == Lower(email);
    var i :| 0 <= i < |emails| && emails[i] == e;
    var marked := MarkVerified(emails, email);
    assert marked[i] in marked;
    var found := FindEmail(marked, EmailQuery(None, Some(email), None, None));
    var j :| 0 <= j < |marked| && marked[j] == found.value;
  }

  /** A lookup that names a record's address, in any case, finds that record. */
  lemma FindByAddress(emails: seq<EmailRecord>, e: EmailRecord, q: EmailQuery)
    requires LedgerSound(emails) && e in emails && Matches(e, q) && q.email.Some?
    ensures FindEmail(emails, q) == Some(e)
  {
    AddressIsUnique(emails, FindEmail(emails, q).value, e);
  }

  /** `createUser` in the tests: a user with a fresh id and a free address,
      owning one primary record of that address. */
  method SetUpUser(db: Database, input: NewUser, newId: UserId, now: int, hash: string -> string)
    returns (first: EmailRecord)
    requires db.Valid() && Creatable(db.Tables(), input, newId)
    modifies db`users, db`order, db`acl, db`emails, db`nextEmailId
    ensures db.Valid() && newId in db.users
    ensures db.emails == old(db.emails) + [first] && Fresh(old(db.emails), newId)
    ensures first.userId == newId && first.primary && first.email == Lower(input.email.value)
  {
    var next := db.nextEmailId;
    var created := UsersService.CreateUser(db, input, false, newId, now, hash);
    assert created.Success?;
    first := FirstEmail(next, newId, input);
    assert db.emails == db.Tables().emails;
  }

  /** `createUser`, then `createUserEmail` of a second, non-primary address. */
  method SetUpUserWithSecond(db: Database, input: NewUser, newId: UserId, now: int, hash: string -> string, other: string)
    returns (first: EmailRecord, second: EmailRecord)
    requires db.Valid() && Creatable(db.Tables(), input, newId)
    requires !AddressInUse(db.emails, other) && Lower(other) != Lower(input.email.value)
    modifies db`users, db`order, db`acl, db`emails, db`nextEmailId
    ensures db.Valid()
    ensures NewUserLedger(old(db.emails), first, second) && db.emails == WithSecond(old(db.emails), first, second)
    ensures first.userId == newId && first.email == Lower(input.email.value) && second.email == Lower(other)
  {
    first := SetUpUser(db, input, newId, now, hash);
    LowerIsLowercase(input.email.value);
    assert !Compatible(first, first);
    var added := db.CreateUserEmail(newId, other, false, false);
    assert added.Success?;
    second := added.value;
  }

  /** "should mark user email as verified". */
  method MarkVerifiedTest(db: Database, input: NewUser, newId: UserId, now: int, hash: string -> string)
    returns (found: Option<EmailRecord>)
    requires db.Valid() && Creatable(db.Tables(), input, newId)
    modifies db`users, db`order, db`acl, db`emails, db`nextEmailId
    ensures found.Some? && found.value.verified
  {
    var first := SetUpUser(db, input, newId, now, hash);
    LowerIsLowercase(input.email.value);
    assert first in db.emails;
    ghost var before := db.emails;
    var marked := db.MarkUserAsVerified(input.email.value);
    found := FindEmail(db.emails, EmailQuery(None, Some(input.email.value), None, None));
    VerifiedAddressIsFound(before, input.email.value);
  }

  /** "should throw and error when trying to delete last email". */
  method DeleteLastEmailTest(db: Database, input: NewUser, newId: UserId, now: int, hash: string -> string)
    returns (r: Result<bool, Error>)
    requires db.Valid() && Creatable(db.Tables(), input, newId)
    modifies db`users, db`order, db`acl, db`emails, db`nextEmailId
    ensures r == Failure(LastUserEmail) && Message(r.error) == Some("Cannot delete last user email")
  {
    ghost var before := db.emails;
    var first := SetUpUser(db, input, newId, now, hash);
    LowerIsLowercase(input.email.value);
    var found := FindEmail(db.emails, EmailQuery(None, Some(input.email.value), Some(newId), None));
    FindByAddress(db.emails, first, EmailQuery(None, Some(input.email.value), Some(newId), None));
    LastEmailIsKept(before, first);
    r := db.DeleteUserEmail(found.value.id, newId);
  }

  /** "should throw and error when trying to delete primary email". */
  method DeletePrimaryEmailTest(db: Database, input: NewUser, newId: UserId, now: int, hash: string -> string, other: string)
    returns (r: Result<bool, Error>)
    requires db.Valid() && Creatable(db.Tables(), input, newId)
    requires !AddressInUse(db.emails, other) && Lower(other) != Lower(input.email.value)
    modifies db`users, db`order, db`acl, db`emails, db`nextEmailId
    ensures r == Failure(PrimaryEmailDelete) && Message(r.error) == Some("Cannot delete primary email")
  {
    ghost var before := db.emails;
    var first, second := SetUpUserWithSecond(db, input, newId, now, hash, other);
    LowerIsLowercase(input.email.value);
    var q := EmailQuery(None, Some(input.email.value), Some(newId), Some(true));
    var found := FindEmail(db.emails, q);
    FindByAddress(db.emails, first, q);
    PrimaryEmailIsKept(before, first, second);
    r := db.DeleteUserEmail(found.value.id, newId);
  }

  /** "should delete email". */
  method DeleteEmailTest(db: Database, input: NewUser, newId: UserId, now: int, hash: string -> string, other: string)
    returns (r: Result<bool, Error>, after: Option<EmailRecord>)
    requires db.Valid() && Creatable(db.Tables(), input, newId)
    requires !AddressInUse(db.emails, other) && Lower(other) != Lower(input.email.value)
    modifies db`users, db`order, db`acl, db`emails, db`nextEmailId
    ensures r == Success(true) && after.None?
  {
    ghost var before := db.emails;
    var first, second := SetUpUserWithSecond(db, input, newId, now, hash, other);
    LowerIsLowercase(other);
    var q := EmailQuery(None, Some(other), Some(newId), Some(false));
    var found := FindEmail(db.emails, q);
    FindByAddress(db.emails, second, q);
    SecondEmailIsDeleted(before, first, second);
    FindEmailIgnoresCase(WithoutRecord(WithSecond(before, first, second), second.id),
                         EmailQuery(None, Some(second.email), Some(newId), Some(false)), other);
    r := db.DeleteUserEmail(found.value.id, newId);
    after := FindEmail(db.emails, q);
  }

  /** "should set primary email". */
  method SetPrimaryEmailTest(db: Database, input: NewUser, newId: UserId, now: int, hash: string -> string, other: string)
    returns (r: Result<bool, Error>, previous: Option<EmailRecord>, current: Option<EmailRecord>)
    requires db.Valid() && Creatable(db.Tables(), input, newId)
    requires !AddressInUse(db.emails, other) && Lower(other) != Lower(input.email.value)
    modifies db`users, db`order, db`acl, db`emails, db`nextEmailId
    ensures r == Success(true)
    ensures previous.Some? && !previous.value.primary && current.Some? && current.value.primary
  {
    ghost var before := db.emails;
    var first, second := SetUpUserWithSecond(db, input, newId, now, hash, other);
    LowerIsLowercase(other);
    var q := EmailQuery(None, Some(other), Some(newId), Some(false));
    var found := FindEmail(db.emails, q);
    FindByAddress(db.emails, second, q);
    SecondEmailIsPromoted(before, first, second);
    r := db.SetPrimaryUserEmail(found.value.id, newId);
    previous := FindEmail(db.emails, EmailQuery(None, None, Some(newId), Some(false)));
    current := FindEmail(db.emails, EmailQuery(None, None, Some(newId), Some(true)));
  }

  /** "should throw an error when trying to create a a primary email for a
      user and there is already one for that user". */
  method SecondPrimaryEmailTest(db: Database, input: NewUser, newId: UserId, now: int, hash: string -> string, other: string)
    returns (r: Result<EmailRecord, Error>)
    requires db.Valid() && Creatable(db.Tables(), input, newId)
    modifies db`users, db`order, db`acl, db`emails, db`nextEmailId
    ensures r == Failure(PrimaryEmailExists) && Message(r.error) == Some("A primary email already exists for this user")
  {
    var first := SetUpUser(db, input, newId, now, hash);
    assert first in db.emails;
    assert HasPrimary(db.emails, newId);
    r := db.CreateUserEmail(newId, other, true, false);
  }

  /** "should throw an error when trying to mark an email as primary and
      there is already one for the user". */
  method UpdateToPrimaryTest(db: Database, input: NewUser, newId: UserId, now: int, hash: string -> string, other: string)
    returns (r: Result<EmailRecord, Error>)
    requires db.Valid() && Creatable(db.Tables(), input, newId)
    requires !AddressInUse(db.emails, other) && Lower(other) != Lower(input.email.value)
    modifies db`users, db`order, db`acl, db`emails, db`nextEmailId
    ensures r == Failure(PrimaryEmailExists) && Message(r.error) == Some("A primary email already exists for this user")
  {
    ghost var before := db.emails;
    var first, second := SetUpUserWithSecond(db, input, newId, now, hash, other);
    LowerIsLowercase(other);
    var q := EmailQuery(None, Some(other), Some(newId), Some(false));
    var found := FindEmail(db.emails, q);
    FindByAddress(db.emails, second, q);
    SecondPrimaryIsRefused(before, first, second);
    r := db.UpdateUserEmail(ById(found.value.id), newId, EmailUpdate(None, Some(true), None));
  }
}
