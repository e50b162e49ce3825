/**
 * The waitlist server action: validate the entry, refuse unverified phones,
 * refuse a phone or email already on the list, then insert one row. The hosted
 * table is an in-memory sequence of rows; the database's behaviour on a call
 * (normal, insert rejected, or an exception) is a parameter.
 */
module WaitlistAction {
  import opened Common
  import opened Text
  import opened Schema

  /** The argument of the action. `email` and `verified` may be absent. */
  datatype Entry = Entry(name: string, email: Option<string>, phone: string, verified: Option<bool>)

  /** A row of the `waitlist` table; `email` is the column value, null when none was given. */
  datatype Row = Row(name: string, email: Option<string>, phone: string, createdAt: int)

  type Table = seq<Row>

  /**
   * How the database behaves during one call. The duplicate lookups read only
   * `data`, which `.single()` leaves null on any error, so `DbLookupError` (both
   * lookups answer with an error, the insert goes through) looks to the action
   * like "no such row".
   */
  datatype Db = DbOk | DbLookupError | DbInsertError | DbThrows

  /** The action's reply and the table after the call. */
  datatype Answer = Answer(result: ActionResult, table: Table)

  const VerificationMessage := "Phone verification required."
  const DuplicatePhoneMessage := "This phone number is already on our waitlist."
  const DuplicateEmailMessage := "This email is already on our waitlist."
  const InsertFailedMessage := "Failed to join waitlist. Please try again."
  const JoinedMessage := "Successfully joined the waitlist!"
  const CrashMessage := "Something went wrong. Please try again."

  /** The email rule of this schema: absent, the empty string, or a valid address. */
  predicate EmailAccepted(email: Option<string>, isEmail: EmailRule) {
    email == None || email.value == "" || isEmail(email.value)
  }

  /** The first issue the schema reports, fields taken in the order name, email, phone. */
  function FirstIssue(entry: Entry, isEmail: EmailRule): (issue: Option<string>)
    ensures issue == None <==> NameOk(entry.name) && EmailAccepted(entry.email, isEmail) && PhoneOk(entry.phone)
    ensures !NameOk(entry.name) ==> issue == Some(NameMessage)
    ensures NameOk(entry.name) && !EmailAccepted(entry.email, isEmail) ==> issue == Some(EmailMessage)
    ensures NameOk(entry.name) && EmailAccepted(entry.email, isEmail) && !PhoneOk(entry.phone) ==>
              issue == Some(PhoneMessage)
  {
    FirstOf(NameIssue(entry.name), if EmailAccepted(entry.email, isEmail) then None else Some(EmailMessage),
            PhoneIssue(entry.phone))
  }

  /** The value written to the `email` column: `email || null`. */
  function EmailColumn(email: Option<string>): (column: Option<string>)
    ensures column != None <==> Truthy(email)
    ensures column != None ==> column == email
    ensures column != Some("")
  {
    if Truthy(email) then email else None
  }

  predicate HasPhone(table: Table, phone: string) {
    exists i :: 0 <= i < |table| && table[i].phone == phone
  }

  predicate HasEmail(table: Table, email: string) {
    exists i :: 0 <= i < |table| && table[i].email == Some(email)
  }

  /** Row `i` is the only row with this phone. */
  predicate OnlyPhoneAt(table: Table, phone: string, i: int) {
    && 0 <= i < |table| && table[i].phone == phone
    && forall j :: 0 <= j < |table| && table[j].phone == phone ==> j == i
  }

  /** Row `i` is the only row with this email. */
  predicate OnlyEmailAt(table: Table, email: string, i: int) {
    && 0 <= i < |table| && table[i].email == Some(email)
    && forall j :: 0 <= j < |table| && table[j].email == Some(email) ==> j == i
  }

  /** `.eq("phone", phone).single()` yields a row: the lookup answered and exactly one row matches. */
  predicate PhoneFound(table: Table, phone: string, db: Db) {
    db != DbLookupError && exists i :: 0 <= i < |table| && OnlyPhoneAt(table, phone, i)
  }

  /** `.eq("email", email).single()` yields a row: the lookup answered and exactly one row matches. */
  predicate EmailFound(table: Table, email: string, db: Db) {
    db != DbLookupError && exists i :: 0 <= i < |table| && OnlyEmailAt(table, email, i)
  }

  /** No two rows share a phone number. */
  predicate UniquePhones(table: Table) {
    forall i, j :: 0 <= i < j < |table| ==> table[i].phone != table[j].phone
  }

  /** No two rows share a (non-null) email. */
  predicate UniqueEmails(table: Table) {
    forall i, j :: 0 <= i < j < |table| && table[i].email != None ==> table[i].email != table[j].email
  }

  /** The conditions under which a call inserts a row. */
  predicate Admits(table: Table, entry: Entry, isEmail: EmailRule, db: Db) {
    && FirstIssue(entry, isEmail) == None
    && entry.verified == Some(true)
    && (db == DbOk || db == DbLookupError)
    && !PhoneFound(table, entry.phone, db)
    && !(Truthy(entry.email) && EmailFound(table, entry.email.value, db))
  }

  function NewRow(entry: Entry, now: int): Row {
    Row(entry.name, EmailColumn(entry.email), entry.phone, now)
  }

  /** `subscribeToWaitlist(entry)` against `table`, at time `now`. */
  function Subscribe(table: Table, entry: Entry, isEmail: EmailRule, db: Db, now: int): (a: Answer)
    // success exactly when every check passes, and then exactly one row is appended
    ensures a.result.success <==> Admits(table, entry, isEmail, db)
    ensures a.result.success ==> a.table == table + [NewRow(entry, now)] && a.result.message == JoinedMessage
    ensures !a.result.success ==> a.table == table
    // the checks run in order, so the earliest failing one names the reply
    ensures FirstIssue(entry, isEmail) != None ==> a.result == Failed(FirstIssue(entry, isEmail).value)
    ensures FirstIssue(entry, isEmail) == None && entry.verified != Some(true) ==>
              a.result == Failed(VerificationMessage)
    ensures FirstIssue(entry, isEmail) == None && entry.verified == Some(true) && db == DbThrows ==>
              a.result == Failed(CrashMessage)
    ensures FirstIssue(entry, isEmail) == None && entry.verified == Some(true) && db != DbThrows ==>
              (PhoneFound(table, entry.phone, db) ==> a.result == Failed(DuplicatePhoneMessage))
    ensures FirstIssue(entry, isEmail) == None && entry.verified == Some(true) && db != DbThrows
            && !PhoneFound(table, entry.phone, db) && Truthy(entry.email) && EmailFound(table, entry.email.value, db) ==>
              a.result == Failed(DuplicateEmailMessage)
    ensures a.result == Failed(InsertFailedMessage) <==>
              FirstIssue(entry, isEmail) == None && entry.verified == Some(true) && db == DbInsertError
              && !PhoneFound(table, entry.phone, db)
              && !(Truthy(entry.email) && EmailFound(table, entry.email.value, db))
    // while the lookups answer, a listed phone or email is refused, so uniqueness is kept
    ensures UniquePhones(table) && db != DbLookupError && HasPhone(table, entry.phone) ==> !a.result.success
    ensures UniquePhones(table) && db != DbLookupError ==> UniquePhones(a.table)
    ensures UniqueEmails(table) && db != DbLookupError ==> UniqueEmails(a.table)
  {
    PhoneFoundIsListed(table, entry.phone, db);
    EmailFoundIsListed(table, if Truthy(entry.email) then entry.email.value else "", db);

    match FirstIssue(entry, isEmail)
    case Some(message) => Answer(Failed(message), table)
    case None =>
      if entry.verified != Some(true) then Answer(Failed(VerificationMessage), table)
      else if db == DbThrows then Answer(Failed(CrashMessage), table)
      else if PhoneFound(table, entry.phone, db) then Answer(Failed(DuplicatePhoneMessage), table)
      else if Truthy(entry.email) && EmailFound(table, entry.email.value, db) then
        Answer(Failed(DuplicateEmailMessage), table)
      else if db == DbInsertError then Answer(Failed(InsertFailedMessage), table)
      else
        var table' := table + [NewRow(entry, now)];
        assert table'[|table|] == NewRow(entry, now);
        assert forall i :: 0 <= i < |table| ==> table'[i] == table[i];
        Answer(ActionResult(true, JoinedMessage), table')
  }

  /** With unique phones and answering lookups, the phone lookup finds a row exactly when one is listed. */
  lemma PhoneFoundIsListed(table: Table, phone: string, db: Db)
    ensures UniquePhones(table) && db != DbLookupError ==> (PhoneFound(table, phone, db) <==> HasPhone(table, phone))
  {
    if UniquePhones(table) && db != DbLookupError && HasPhone(table, phone) {
      var i :| 0 <= i < |table| && table[i].phone == phone;
      assert OnlyPhoneAt(table, phone, i);
    }
  }

  /** With unique emails and answering lookups, the email lookup finds a row exactly when one is listed. */
  lemma EmailFoundIsListed(table: Table, email: string, db: Db)
    ensures UniqueEmails(table) && db != DbLookupError ==> (EmailFound(table, email, db) <==> HasEmail(table, email))
  {
    if UniqueEmails(table) && db != DbLookupError && HasEmail(table, email) {
      var i :| 0 <= i < |table| && table[i].email == Some(email);
      assert OnlyEmailAt(table, email, i);
    }
  }

  /**
   * The duplicate check fails open: when the lookups answer with an error, a
   * verified entry whose phone is already listed is inserted a second time.
   */
  lemma LookupErrorAdmitsDuplicate(table: Table, entry: Entry, isEmail: EmailRule, now: int)
    requires HasPhone(table, entry.phone)
    requires FirstIssue(entry, isEmail) == None && entry.verified == Some(true)
    ensures var a := Subscribe(table, entry, isEmail, DbLookupError, now);
            a.result.success && !UniquePhones(a.table)
  {
    var a := Subscribe(table, entry, isEmail, DbLookupError, now);
    var i :| 0 <= i < |table| && table[i].phone == entry.phone;
    assert a.table[i].phone == a.table[|table|].phone;
  }

  /**
   * Once a phone is listed twice, `.single()` errors on it even against a
   * healthy database, so the phone check never fires for it again.
   */
  lemma DuplicatedPhoneIsNeverFound(table: Table, phone: string, db: Db, i: nat, j: nat)
    requires i < j < |table| && table[i].phone == phone && table[j].phone == phone
    ensures !PhoneFound(table, phone, db)
  {
  }

  /** One call of the action, with the database behaviour and the clock it met. */
  datatype Call = Call(entry: Entry, db: Db, now: int)

  /** The table after a sequence of calls made one after another. */
  function Replay(table: Table, calls: seq<Call>, isEmail: EmailRule): Table
    decreases |calls|
  {
    if calls == [] then table
    else
      var c := calls[0];
      Replay(Subscribe(table, c.entry, isEmail, c.db, c.now).table, calls[1..], isEmail)
  }

  /** No call met a lookup error. */
  predicate LookupsAnswer(calls: seq<Call>) {
    forall k :: 0 <= k < |calls| ==> calls[k].db != DbLookupError
  }

  /** Sequential calls whose lookups answer keep phone numbers and emails unique. */
  lemma {:induction false} ReplayKeepsUnique(table: Table, calls: seq<Call>, isEmail: EmailRule)
    requires LookupsAnswer(calls)
    ensures UniquePhones(table) ==> UniquePhones(Replay(table, calls, isEmail))
    ensures UniqueEmails(table) ==> UniqueEmails(Replay(table, calls, isEmail))
    decreases |calls|
  {
    if calls != [] {
      var c := calls[0];
      assert LookupsAnswer(calls[1..]) by {
        forall k | 0 <= k < |calls[1..]| ensures calls[1..][k].db != DbLookupError {
          assert calls[1..][k] == calls[k + 1];
        }
      }
      assert c.db != DbLookupError;
      ReplayKeepsUnique(Subscribe(table, c.entry, isEmail, c.db, c.now).table, calls[1..], isEmail);
    }
  }

  /** Rows are never removed or changed: the table only grows at its end. */
  lemma {:induction false} ReplayOnlyAppends(table: Table, calls: seq<Call>, isEmail: EmailRule)
    ensures |table| <= |Replay(table, calls, isEmail)|
    ensures Replay(table, calls, isEmail)[..|table|] == table
    decreases |calls|
  {
    if calls != [] {
      var c := calls[0];
      var next := Subscribe(table, c.entry, isEmail, c.db, c.now).table;
      ReplayOnlyAppends(next, calls[1..], isEmail);
      assert next[..|table|] == table;
    }
  }

  /**
   * Every row added by a sequence of calls was submitted by one of them with
   * `verified` set, under a name and phone that passed the schema.
   */
  lemma {:induction false} AddedRowsWereVerified(table: Table, calls: seq<Call>, isEmail: EmailRule, k: nat)
    requires |table| <= k < |Replay(table, calls, isEmail)|
    ensures exists j :: 0 <= j < |calls| && calls[j].entry.verified == Some(true)
              && NewRow(calls[j].entry, calls[j].now) == Replay(table, calls, isEmail)[k]
              && PhoneOk(calls[j].entry.phone) && NameOk(calls[j].entry.name)
    decreases |calls|
  {
    var c := calls[0];
    var a := Subscribe(table, c.entry, isEmail, c.db, c.now);
    ReplayOnlyAppends(a.table, calls[1..], isEmail);
    if a.result.success && k == |table| {
      assert Replay(table, calls, isEmail)[k] == a.table[k];
      assert calls[0].entry.verified == Some(true);
    } else {
      assert |table| < k || !a.result.success;
      assert |a.table| <= k;
      AddedRowsWereVerified(a.table, calls[1..], isEmail, k);
      var j :| 0 <= j < |calls[1..]| && calls[1..][j].entry.verified == Some(true)
               && NewRow(calls[1..][j].entry, calls[1..][j].now) == Replay(a.table, calls[1..], isEmail)[k]
               && PhoneOk(calls[1..][j].entry.phone) && NameOk(calls[1..][j].entry.name);
      assert calls[j + 1] == calls[1..][j];
    }
  }

  /**
   * Once a phone number is on a list of unique phones, every later call with
   * that number is refused, as long as the lookups answer.
   */
  lemma {:induction false} RegisteredPhoneStaysRefused(table: Table, calls: seq<Call>, isEmail: EmailRule, entry: Entry,
                                                       db: Db, now: int)
    requires UniquePhones(table) && HasPhone(table, entry.phone)
    requires LookupsAnswer(calls) && db != DbLookupError
    ensures !Subscribe(Replay(table, calls, isEmail), entry, isEmail, db, now).result.success
  {
    ReplayOnlyAppends(table, calls, isEmail);
    ReplayKeepsUnique(table, calls, isEmail);
    var later := Replay(table, calls, isEmail);
    var i :| 0 <= i < |table| && table[i].phone == entry.phone;
    assert later[i] == table[i];
  }
}
