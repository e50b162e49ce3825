/**
 * The two OTP routes over the `otp_codes` table: send stores a fresh six-digit
 * code with a ten-minute expiry; verify accepts the newest unexpired record
 * matching phone and code and deletes it. The table is an in-memory sequence
 * of records with a counter standing for the serial `id` column; the clock,
 * the random draw and the database's success are parameters.
 */
module OtpStore {
  import opened Common
  import opened Text

  /** A row of `otp_codes`. Times are milliseconds since the epoch. */
  datatype Record = Record(id: nat, phone: string, code: string, expiresAt: int, createdAt: int)

  /** The table and the next value of its `id` sequence. */
  datatype Store = Store(records: seq<Record>, nextId: nat)

  /** The JSON body of a request, or a body that does not parse. */
  datatype Request = Unparsable | Body(phone: Option<string>, code: Option<string>)

  /** The HTTP status and the `{ success, message }` JSON of a reply. */
  datatype Reply = Reply(status: nat, success: bool, message: string)

  datatype Answer = Answer(reply: Reply, store: Store)

  /** Ten minutes, in milliseconds. */
  const CodeLifetime: int := 10 * 60 * 1000

  /** `floor(Math.random() * 900000)`: the random part of a code. */
  type Draw = d: nat | d < 900000

  const PhoneRequiredMessage := "Phone number is required"
  const StoreFailedMessage := "Failed to send verification code"
  const SentMessage := "Verification code sent"
  const FieldsRequiredMessage := "Phone number and verification code are required"
  const RejectedMessage := "Invalid or expired verification code"
  const VerifiedMessage := "Phone verified successfully"
  const InternalErrorMessage := "Internal server error"

  /** The code generated from a draw: `Math.floor(100000 + draw).toString()`. */
  function Code(draw: Draw): (code: string)
    ensures |code| == 6 && AllDigits(code)
    ensures 100000 <= DecimalValue(code) <= 999999
    ensures DecimalValue(code) == 100000 + draw
  {
    var n := 100000 + draw;
    assert Pow10(5) == 100000 && Pow10(6) == 1000000;
    DecimalLength(n, 6);
    Decimal(n)
  }

  /** Every id is below the counter and no two records share one. */
  predicate IdsFresh(store: Store) {
    && (forall i :: 0 <= i < |store.records| ==> store.records[i].id < store.nextId)
    && UniqueIds(store.records)
  }

  /** Every record expires exactly ten minutes after it was created. */
  predicate LifetimesExact(store: Store) {
    forall i :: 0 <= i < |store.records| ==> store.records[i].expiresAt == store.records[i].createdAt + CodeLifetime
  }

  predicate WellFormed(store: Store) {
    IdsFresh(store) && LifetimesExact(store)
  }

  /** `POST /api/otp/send` at time `now`; the store's `created_at` default reads the same clock. */
  function Send(store: Store, request: Request, now: int, draw: Draw, insertOk: bool): (a: Answer)
    ensures request == Unparsable ==> a == Answer(Reply(500, false, InternalErrorMessage), store)
    ensures request.Body? && !Truthy(request.phone) ==> a == Answer(Reply(400, false, PhoneRequiredMessage), store)
    ensures request.Body? && Truthy(request.phone) && !insertOk ==>
              a == Answer(Reply(500, false, StoreFailedMessage), store)
    ensures a.reply.success <==> request.Body? && Truthy(request.phone) && insertOk
    // success appends exactly one record and keeps every earlier one
    ensures a.reply.success ==>
              && a.store.records == store.records + [Record(store.nextId, request.phone.value, Code(draw),
                                                            now + CodeLifetime, now)]
              && a.reply == Reply(200, true, SentMessage)
    ensures !a.reply.success ==> a.store == store
    ensures WellFormed(store) ==> WellFormed(a.store)
  {
    match request
    case Unparsable => Answer(Reply(500, false, InternalErrorMessage), store)
    case Body(phone, _) =>
      if !Truthy(phone) then Answer(Reply(400, false, PhoneRequiredMessage), store)
      else if !insertOk then Answer(Reply(500, false, StoreFailedMessage), store)
      else
        var issued := Record(store.nextId, phone.value, Code(draw), now + CodeLifetime, now);
        Answer(Reply(200, true, SentMessage), Store(store.records + [issued], store.nextId + 1))
  }

  /** The record satisfies the query's filters: same phone, same code, `expires_at` after `now`. */
  predicate Matches(r: Record, phone: string, code: string, now: int) {
    r.phone == phone && r.code == code && r.expiresAt > now
  }

  /**
   * The position of the record the query returns: a matching record with the
   * latest `created_at` (ties go to the one stored last), or None.
   */
  function Newest(records: seq<Record>, phone: string, code: string, now: int): (pick: Option<nat>)
    ensures pick == None <==> forall i :: 0 <= i < |records| ==> !Matches(records[i], phone, code, now)
    ensures pick != None ==>
              && pick.value < |records|
              && Matches(records[pick.value], phone, code, now)
              && forall i :: 0 <= i < |records| && Matches(records[i], phone, code, now) ==>
                   records[i].createdAt <= records[pick.value].createdAt
    decreases |records|
  {
    if records == [] then None
    else
      var last := |records| - 1;
      var earlier := Newest(records[..last], phone, code, now);
      if !Matches(records[last], phone, code, now) then earlier
      else if earlier != None && records[earlier.value].createdAt > records[last].createdAt then earlier
      else Some(last)
  }

  /** `delete().eq("id", id)`: every record with that id is removed. */
  function DeleteId(records: seq<Record>, id: nat): (rest: seq<Record>)
    ensures |rest| <= |records|
    ensures forall i :: 0 <= i < |rest| ==> rest[i].id != id
    ensures forall i :: 0 <= i < |records| && records[i].id != id ==> records[i] in rest
    ensures (forall i :: 0 <= i < |records| ==> records[i].id != id) ==> rest == records
  {
    if records == [] then []
    else (if records[0].id == id then [] else [records[0]]) + DeleteId(records[1..], id)
  }

  /** With unique ids, deleting the id of the record at `k` removes that record and only it. */
  lemma {:induction false} DeleteOnlyChosen(records: seq<Record>, k: nat)
    requires k < |records|
    requires UniqueIds(records)
    ensures DeleteId(records, records[k].id) == records[..k] + records[k + 1..]
  {
    var id := records[k].id;
    if k == 0 {
      assert forall i :: 0 <= i < |records[1..]| ==> records[1..][i].id != id by {
        forall i | 0 <= i < |records[1..]|
          ensures records[1..][i].id != id
        {
          assert records[1..][i] == records[i + 1];
        }
      }
    } else {
      DeleteOnlyChosen(records[1..], k - 1);
      assert records[1..][k - 1] == records[k];
      assert records[1..][..k - 1] + records[1..][k..] == records[1..k] + records[k + 1..];
      assert [records[0]] + records[1..k] == records[..k];
    }
  }

  /**
   * `POST /api/otp/verify` at time `now`. `queryOk` is whether the lookup
   * returned without error; `deleteOk` whether the delete took effect (its
   * result is not inspected by the route).
   */
  function Verify(store: Store, request: Request, now: int, queryOk: bool, deleteOk: bool): (a: Answer)
    ensures request == Unparsable ==> a == Answer(Reply(500, false, InternalErrorMessage), store)
    ensures request.Body? && !(Truthy(request.phone) && Truthy(request.code)) ==>
              a == Answer(Reply(400, false, FieldsRequiredMessage), store)
    ensures a.reply.success <==>
              request.Body? && Truthy(request.phone) && Truthy(request.code) && queryOk
              && Newest(store.records, request.phone.value, request.code.value, now) != None
    // a wrong, expired or unreadable code gets the one rejection reply and leaves the store as it was
    ensures request.Body? && Truthy(request.phone) && Truthy(request.code) && !a.reply.success ==>
              a.reply == Reply(400, false, RejectedMessage)
    ensures !a.reply.success ==> a.store == store
    ensures a.reply.success ==>
              a.reply == Reply(200, true, VerifiedMessage)
              && var k := Newest(store.records, request.phone.value, request.code.value, now).value;
                 && Matches(store.records[k], request.phone.value, request.code.value, now)
                 && a.store == (if deleteOk then Store(DeleteId(store.records, store.records[k].id), store.nextId)
                                else store)
    ensures WellFormed(store) ==> WellFormed(a.store)
  {
    match request
    case Unparsable => Answer(Reply(500, false, InternalErrorMessage), store)
    case Body(phone, code) =>
      if !Truthy(phone) || !Truthy(code) then Answer(Reply(400, false, FieldsRequiredMessage), store)
      else
        var pick := Newest(store.records, phone.value, code.value, now);
        if !queryOk || pick == None then Answer(Reply(400, false, RejectedMessage), store)
        else
          var chosen := store.records[pick.value];
          var after := if deleteOk then Store(DeleteId(store.records, chosen.id), store.nextId) else store;
          DeletePreservesWellFormed(store, chosen.id);
          Answer(Reply(200, true, VerifiedMessage), after)
  }

  predicate UniqueIds(records: seq<Record>) {
    forall i, j :: 0 <= i < j < |records| ==> records[i].id != records[j].id
  }

  /** A delete keeps only records that were there, and keeps their ids distinct. */
  lemma {:induction false} DeleteKeepsRecords(records: seq<Record>, id: nat)
    ensures forall r :: r in DeleteId(records, id) ==> r in records
    ensures UniqueIds(records) ==> UniqueIds(DeleteId(records, id))
  {
    if records != [] {
      DeleteKeepsRecords(records[1..], id);
      var rest := DeleteId(records[1..], id);
      if records[0].id != id && UniqueIds(records) {
        forall k | 0 <= k < |rest|
          ensures rest[k].id != records[0].id
        {
          assert rest[k] in records[1..];
          var m :| 0 <= m < |records[1..]| && records[1..][m] == rest[k];
          assert records[m + 1] == rest[k];
        }
        assert UniqueIds(records[1..]) by {
          forall i, j | 0 <= i < j < |records[1..]|
            ensures records[1..][i].id != records[1..][j].id
          {
            assert records[1..][i] == records[i + 1] && records[1..][j] == records[j + 1];
          }
        }
        assert DeleteId(records, id) == [records[0]] + rest;
      } else if UniqueIds(records) {
        assert UniqueIds(records[1..]) by {
          forall i, j | 0 <= i < j < |records[1..]|
            ensures records[1..][i].id != records[1..][j].id
          {
            assert records[1..][i] == records[i + 1] && records[1..][j] == records[j + 1];
          }
        }
      }
    }
  }

  /** Deleting preserves the well-formedness of the store. */
  lemma DeletePreservesWellFormed(store: Store, id: nat)
    ensures WellFormed(store) ==> WellFormed(Store(DeleteId(store.records, id), store.nextId))
  {
    DeleteKeepsRecords(store.records, id);
    var rest := DeleteId(store.records, id);
    if WellFormed(store) {
      forall i | 0 <= i < |rest|
        ensures rest[i].id < store.nextId && rest[i].expiresAt == rest[i].createdAt + CodeLifetime
      {
        assert rest[i] in store.records;
      }
    }
  }

  /** The record `Verify` accepts for a request it answers with success. */
  function Accepted(store: Store, request: Request, now: int): Option<nat>
    requires request.Body? && Truthy(request.phone) && Truthy(request.code)
  {
    Newest(store.records, request.phone.value, request.code.value, now)
  }

  /**
   * No code older than ten minutes is accepted: the record a successful verify
   * consumes was created less than `CodeLifetime` before `now`.
   */
  lemma ExpiredNeverAccepted(store: Store, request: Request, now: int, queryOk: bool, deleteOk: bool)
    requires WellFormed(store)
    requires Verify(store, request, now, queryOk, deleteOk).reply.success
    ensures request.Body? && Truthy(request.phone) && Truthy(request.code)
    ensures var k := Accepted(store, request, now).value;
            now - store.records[k].createdAt < CodeLifetime
  {
  }

  /**
   * A code just sent is accepted by a verify within its lifetime, which deletes
   * exactly the record just stored (the clock has not run backwards past any
   * earlier record).
   */
  lemma {:induction false} SentCodeVerifies(store: Store, phone: string, now: int, draw: Draw, later: int)
    requires WellFormed(store) && phone != ""
    requires forall i :: 0 <= i < |store.records| ==> store.records[i].createdAt <= now
    requires now <= later < now + CodeLifetime
    ensures var sent := Send(store, Body(Some(phone), None), now, draw, true).store;
            var v := Verify(sent, Body(Some(phone), Some(Code(draw))), later, true, true);
            v.reply.success && v.store.records == store.records
  {
    var sent := Send(store, Body(Some(phone), None), now, draw, true).store;
    var last := |store.records|;
    assert sent.records[..last] == store.records;
    assert Matches(sent.records[last], phone, Code(draw), later);
    assert Newest(sent.records, phone, Code(draw), later) == Some(last);
    DeleteOnlyChosen(sent.records, last);
  }

  /** Exactly one record carries this phone and code, whatever its expiry. */
  predicate SoleRecord(records: seq<Record>, phone: string, code: string) {
    exists k :: 0 <= k < |records| && records[k].phone == phone && records[k].code == code
      && forall i :: 0 <= i < |records| && records[i].phone == phone && records[i].code == code ==> i == k
  }

  /**
   * A consumed code cannot be reused: when a single record carries the phone and
   * code, a second verify with them fails at any later time, once the first one's
   * delete has taken effect.
   */
  lemma {:induction false} ConsumedCodeNotReusable(store: Store, phone: string, code: string, now: int, later: int,
                                                    queryOk: bool)
    requires WellFormed(store) && SoleRecord(store.records, phone, code)
    requires Verify(store, Body(Some(phone), Some(code)), now, true, true).reply.success
    ensures var after := Verify(store, Body(Some(phone), Some(code)), now, true, true).store;
            !Verify(after, Body(Some(phone), Some(code)), later, queryOk, true).reply.success
  {
    var k :| 0 <= k < |store.records| && store.records[k].phone == phone && store.records[k].code == code
      && forall i :: 0 <= i < |store.records| && store.records[i].phone == phone && store.records[i].code == code ==> i == k;
    var pick := Newest(store.records, phone, code, now).value;
    assert pick == k;
    DeleteOnlyChosen(store.records, k);
    var rest := store.records[..k] + store.records[k + 1..];
    var after := Verify(store, Body(Some(phone), Some(code)), now, true, true).store;
    assert after.records == rest;
    forall i | 0 <= i < |rest|
      ensures !Matches(rest[i], phone, code, later)
    {
      if i < k {
        assert rest[i] == store.records[i];
      } else {
        assert rest[i] == store.records[i + 1];
      }
    }
  }
}
