/**
 * The single-file draft of the backend: the same pending-comments table,
 * but the create endpoint first checks that the expiry lies within the
 * next 24 hours, and it does not catch the primary-key violation of a
 * duplicate code. The clock reading `int(time.time())` is a parameter.
 */
module DraftApp {
  import opened Wrappers
  import opened Models
  import opened PendingComments

  /** `24 * 60 * 60`. */
  const DaySeconds := 86400

  const InThePast := HttpError(400, "expires_at must be in the future")
  const TooFarAhead := HttpError(400, "expires_at cannot be more than 24 hours in the future")

  /** The `sqlite3.IntegrityError` a duplicate code raises; nothing catches it in the draft. */
  const DuplicateCode := Raised("IntegrityError", "UNIQUE constraint failed: pending_comments.code")

  /**
   * `validate_expires_at(expires_at)` with `now` the current time: the
   * rejection raised, if any. The accepted window is closed at both ends.
   */
  function ValidateExpiresAt(expiresAt: int, now: int): (r: Option<HttpError>)
    ensures r.None? <==> now <= expiresAt <= now + DaySeconds
    ensures expiresAt < now ==> r == Some(InThePast)
    ensures now + DaySeconds < expiresAt ==> r == Some(TooFarAhead)
  {
    if expiresAt < now then Some(InThePast)
    else if expiresAt > now + 24 * 60 * 60 then Some(TooFarAhead)
    else None
  }

  /**
   * The draft's create on the table: validation first, then the INSERT,
   * whose overflow and integrity errors both escape.
   */
  function DraftInsert(t: Table, data: PendingComment, now: int): (r: Result<Table, Failure>)
    ensures ValidateExpiresAt(data.expiresAt, now).Some? ==> r == Err(Rejected(ValidateExpiresAt(data.expiresAt, now).value))
    ensures ValidateExpiresAt(data.expiresAt, now).None? && !Bindable(data) ==> r == Err(Uncaught(IntTooLarge))
    ensures ValidateExpiresAt(data.expiresAt, now).None? && Bindable(data) && data.code in t ==> r == Err(Uncaught(DuplicateCode))
    ensures r.Ok? ==> now <= data.expiresAt <= now + DaySeconds && r.value == Insert(t, data).value
  {
    match ValidateExpiresAt(data.expiresAt, now)
    case Some(e) => Err(Rejected(e))
    case None =>
      if !Bindable(data) then Err(Uncaught(IntTooLarge))
      else if data.code in t then Err(Uncaught(DuplicateCode))
      else Ok(t[data.code := data])
  }

  /**
   * The draft and the backend create agree on every valid request: the
   * same new table on success and the same overflow, except that where the
   * backend answers 409 the draft lets the database error escape.
   */
  lemma DraftAgreesWithBackendWhenValid(t: Table, data: PendingComment, now: int)
    requires now <= data.expiresAt <= now + DaySeconds
    ensures DraftInsert(t, data, now).Ok? <==> Insert(t, data).Ok?
    ensures Insert(t, data) != Err(Rejected(CodeExists)) ==> DraftInsert(t, data, now) == Insert(t, data)
    ensures Insert(t, data) == Err(Rejected(CodeExists)) ==> DraftInsert(t, data, now) == Err(Uncaught(DuplicateCode))
  {
  }

  /** The two bounds of the window are accepted; one second outside either is refused. */
  lemma WindowIsClosed(now: int)
    ensures ValidateExpiresAt(now, now) == None
    ensures ValidateExpiresAt(now + DaySeconds, now) == None
    ensures ValidateExpiresAt(now - 1, now) == Some(InThePast)
    ensures ValidateExpiresAt(now + DaySeconds + 1, now) == Some(TooFarAhead)
  {
  }

  /** An accepted row is expired at its own expiry time, and not yet at creation unless it expires then. */
  lemma AcceptedRowExpiresLater(t: Table, data: PendingComment, now: int)
    requires DraftInsert(t, data, now).Ok?
    ensures data in Expired(DraftInsert(t, data, now).value, data.expiresAt)
    ensures now < data.expiresAt ==> data !in Expired(DraftInsert(t, data, now).value, now)
  {
    var u := DraftInsert(t, data, now).value;
    ExpiredIff(u, data.expiresAt, data);
    ExpiredIff(u, now, data);
  }

  /** The draft's table as a store object. */
  class DraftStore {
    var rows: Table

    ghost predicate Valid()
      reads this
    {
      Keyed(rows) && Storable(rows)
    }

    /** `init_db` on a fresh database file. */
    constructor()
      ensures Valid() && rows == map[]
    {
      rows := map[];
    }

    /** `create_pending_comment`: an invalid expiry, an overflowing field or a duplicate code leaves the table unchanged. */
    method Create(data: PendingComment, now: int) returns (r: Result<Ack, Failure>)
      requires Valid()
      modifies this
      ensures Valid()
      ensures DraftInsert(old(rows), data, now).Ok? ==> rows == DraftInsert(old(rows), data, now).value && r == Ok(Ack("created", data.code))
      ensures DraftInsert(old(rows), data, now).Err? ==> rows == old(rows) && r == Err(DraftInsert(old(rows), data, now).error)
    {
      var invalid := ValidateExpiresAt(data.expiresAt, now);
      if invalid.Some? {
        return Err(Rejected(invalid.value));
      }
      if !Bindable(data) {
        return Err(Uncaught(IntTooLarge));
      }
      if data.code in rows {
        return Err(Uncaught(DuplicateCode));
      }
      rows := rows[data.code := data];
      return Ok(Ack("created", data.code));
    }

    /** `get_expired_comments`, with the clock reading passed in. */
    method GetExpired(now: int) returns (expired: seq<PendingComment>)
      requires Valid()
      ensures Elems(expired) == Expired(rows, now)
      ensures Distinct(expired)
    {
      expired := CollectExpired(rows, now);
    }
  }
}
